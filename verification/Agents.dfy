/** Storage agents and the predicates that decide what they may be used for
    (internal/controlplane/replication.go, erasure_distributed.go). */
module Agents {
  import opened Prelude

  const LOCAL := "__repoark_local__"

  /** A decoded JSON label. */
  datatype Label = Text(text: string) | Number(number: int) | Null | Other

  /** What a label gives where all labels are read as text: a null reads as no text at all. */
  function AsText(l: Label): Option<string> {
    match l
    case Text(t) => Some(t)
    case Null => Some("")
    case _ => None
  }

  predicate AllText(labels: map<string, Label>) {
    forall l :: l in labels ==> AsText(labels[l]).Some?
  }

  datatype Agent = Agent(
    id: string,
    labels: Option<map<string, Label>>,
    publicKey: string,
    storageHealth: string,
    totalBytes: int,
    freeBytes: int,
    freePercent: real,
    lastSeen: int)

  datatype StorageConfig = StorageConfig(
    enabled: bool,
    minFreeBytes: int,
    minFreePercent: real,
    evacuateDegraded: bool)

  const HEALTHY := "healthy"
  const DEGRADED := "degraded"
  const UNHEALTHY := "unhealthy"

  predicate Readable(a: Agent, cfg: StorageConfig) {
    !cfg.enabled || a.storageHealth != UNHEALTHY
  }

  predicate AcceptsPlacement(a: Agent, cfg: StorageConfig) {
    !cfg.enabled
    || (&& a.storageHealth != UNHEALTHY && a.storageHealth != DEGRADED && TrimSpace(a.storageHealth) != ""
        && !(cfg.minFreeBytes > 0 && a.freeBytes > 0 && a.freeBytes < cfg.minFreeBytes)
        && !(cfg.minFreePercent > 0.0 && a.totalBytes > 0 && a.freePercent < cfg.minFreePercent))
  }

  predicate CountsDurable(a: Agent, cfg: StorageConfig) {
    !cfg.enabled
    || (&& a.storageHealth != UNHEALTHY && TrimSpace(a.storageHealth) != ""
        && !(cfg.evacuateDegraded && a.storageHealth == DEGRADED))
  }

  predicate HasCapacityFor(a: Agent, cfg: StorageConfig, objectBytes: int) {
    && AcceptsPlacement(a, cfg)
    && (objectBytes <= 0 || a.freeBytes <= 0 || a.freeBytes - objectBytes >= Max(cfg.minFreeBytes, 0))
  }

  /** An agent fit to receive data may be counted as a copy; a counted copy may be read.
      Room for an object is room for any smaller one. */
  lemma FitnessChain(a: Agent, cfg: StorageConfig, small: int, large: int)
    ensures AcceptsPlacement(a, cfg) ==> CountsDurable(a, cfg)
    ensures CountsDurable(a, cfg) ==> Readable(a, cfg)
    ensures small <= large && HasCapacityFor(a, cfg, large) ==> HasCapacityFor(a, cfg, small)
  {
  }

  /** The failure domain named by the label `key`, or "" when the agent has none. */
  function FailureDomain(a: Agent, key: string): string {
    var k := TrimSpace(key);
    if k == "" then ""
    else if a.id == LOCAL then "__local__"
    else if a.labels.None? then ""
    else if !AllText(a.labels.value) then ""
    else if k in a.labels.value then TrimSpace(AsText(a.labels.value[k]).value)
    else ""
  }

  /** The domain used for shard placement: an unlabelled agent is a domain of its own. */
  function ShardDomain(id: string, a: Agent, key: string): string {
    var d := FailureDomain(a, key);
    if d == "" then "__agent__:" + id else d
  }

  function Bandwidth(a: Agent): int {
    if a.labels.None? || "bandwidth_mbps" !in a.labels.value then 0
    else
      match a.labels.value["bandwidth_mbps"]
      case Number(n) => n
      case Text(t) => LeadingInt(TrimSpace(t))
      case _ => 0
  }

  /** The integer at the head of `t`, optionally signed; 0 when there is none. */
  function LeadingInt(t: string): int {
    if t != "" && t[0] == '-' then 0 - Digits(t[1..], 0)
    else if t != "" && t[0] == '+' then Digits(t[1..], 0)
    else Digits(t, 0)
  }

  function Digits(t: string, acc: nat): nat {
    if t == "" || !('0' <= t[0] <= '9') then acc
    else Digits(t[1..], 10 * acc + (t[0] as int - '0' as int))
  }

  predicate InShardPool(a: Agent, name: string) {
    var l := TrimSpace(name);
    l == ""
    || (a.labels.Some? && l in a.labels.value
        && (a.labels.value[l].Text? ==> TrimSpace(a.labels.value[l].text) != ""))
  }

  predicate Named(names: seq<string>, id: string) {
    exists i :: 0 <= i < |names| && EqualFold(TrimSpace(names[i]), id)
  }

  predicate Allowed(id: string, allowed: seq<string>, excluded: seq<string>) {
    !Named(excluded, id) && (allowed == [] || Named(allowed, id))
  }
}
