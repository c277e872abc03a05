/** What the steps of a shard's handover do to jobs, tables and disks, and what collections leave, row by row
    (internal/controlplane/agent_server.go, worker.go; internal/app/app.go). */
module HandoverFacts {
  import opened Prelude
  import opened CasInstall
  import opened ShardHandover
  import opened ShardSafety
  import BackupCollection
  import CasStore
  import JobStore
  import ObjectRefs
  import RefFacts
  import Inventory

  // --- What a collection leaves ---------------------------------------------------------------------

  /** The tables protect the digest at this time, in whatever letters. */
  ghost predicate Guards(t: ObjectRefs.State, now: int, digest: string) {
    exists p ::
      && |p| == 64 && Lower(p) == digest
      && ((p in t.refs && 1 <= t.refs[p].count)
          || exists id :: id in t.leases && t.leases[id].digest == p && now < t.leases[id].expires)
  }

  /** A regular file with this content below a backup root, large enough and no sidecar. */
  ghost predicate Backs(e: Event, digest: string, sum: Bytes -> string)
    requires e.SurveyEv?
  {
    exists r, f :: r in e.roots && f in r.files && BackupCollection.BackupRoot(r, e.casRoot)
                   && f.regular && e.minSize <= |f.content| && !BackupCollection.Sidecar(f.path) && sum(f.content) == digest
  }

  lemma SurveyKeepsIff(w: World, e: Event, digest: string, sum: Bytes -> string)
    requires e.SurveyEv?
    ensures digest in Kept(w, e, sum) <==> (e.consulted && Guards(w.tables, e.now, digest)) || Backs(e, digest, sum)
  {
    var protected := if e.consulted then ObjectRefs.Protected(w.tables, e.now) else {};
    BackupCollection.KeptIff(e.roots, e.casRoot, e.minSize, protected, sum, digest);
    forall p ensures p in ObjectRefs.Protected(w.tables, e.now) <==>
                || (p in w.tables.refs && 1 <= w.tables.refs[p].count)
                || exists id :: id in w.tables.leases && w.tables.leases[id].digest == p && e.now < w.tables.leases[id].expires {
      RefFacts.ProtectedIff(w.tables, e.now, p);
    }
  }

  /** A collection under way can remove what is on its node and not among what it keeps. */
  lemma RemovableIff(w: World, c: nat, digest: string, sum: Bytes -> string)
    ensures Enabled(w, SweepEv(c, digest), sum) <==> Sweepable(w, c, digest)
    ensures Sweepable(w, c, digest)
       <==> && c in w.collections && w.collections[c].agent in w.disks
            && digest in w.disks[w.collections[c].agent] && digest !in w.collections[c].keep
  {
  }

  /** Until it ends, it can remove an object of its node if and only if, when it made its survey, no backup file had that
      content and the tables, if it asked them at all, did not protect it. */
  lemma FateIsSealed(worlds: seq<World>, events: seq<Event>, a: nat, i: nat, digest: string, sum: Bytes -> string)
    requires Run(worlds, events, sum) && a < i < |worlds| && events[a].SurveyEv?
    requires forall k :: a < k <= i ==> events[a].collection in worlds[k].collections
    requires digest in DiskOf(worlds[i], events[a].agent)
    ensures Sweepable(worlds[i], events[a].collection, digest)
       <==> !Backs(events[a], digest, sum) && !(events[a].consulted && Guards(worlds[a].tables, events[a].now, digest))
  {
    SweepableIff(worlds, events, a, i, digest, sum);
    SealedIff(worlds[a], events[a], digest, sum);
  }

  lemma SealedIff(w: World, e: Event, digest: string, sum: Bytes -> string)
    requires e.SurveyEv?
    ensures Shielded(w, e, digest) || Found(e, digest, sum) <==> (e.consulted && Guards(w.tables, e.now, digest)) || Backs(e, digest, sum)
  {
    KeptIff(w, e, digest, sum);
    SurveyKeepsIff(w, e, digest, sum);
  }

  /** In every run of careful steps, a shard row names a file that is on the row's agent, with the bytes of its name. */
  lemma RowsAreThere(worlds: seq<World>, events: seq<Event>, i: nat, sum: Bytes -> string, r: Slot)
    requires CarefulRun(worlds, events, sum) && i < |worlds| && Digest(sum) && r in worlds[i].rows
    ensures r.agent in worlds[i].disks && worlds[i].rows[r] in worlds[i].disks[r.agent]
    ensures sum(worlds[i].disks[r.agent][worlds[i].rows[r]]) == worlds[i].rows[r]
    ensures forall c :: c in worlds[i].collections && worlds[i].collections[c].agent == r.agent ==>
              worlds[i].rows[r] in worlds[i].collections[c].keep
  {
    RecordedShardsStay(worlds, events, i, sum);
  }

  /** And so it is in every run whose surveys, installs and protect jobs come in time. */
  lemma TimelyRowsAreThere(worlds: seq<World>, events: seq<Event>, i: nat, sum: Bytes -> string, r: Slot)
    requires Run(worlds, events, sum) && Digest(sum) && forall k :: 0 <= k < |events| ==> InTime(worlds[k], events[k], sum)
    requires i < |worlds| && r in worlds[i].rows
    ensures r.agent in worlds[i].disks && worlds[i].rows[r] in worlds[i].disks[r.agent]
    ensures sum(worlds[i].disks[r.agent][worlds[i].rows[r]]) == worlds[i].rows[r]
  {
    TimelyShardsStay(worlds, events, sum);
  }

  // --- The steps -------------------------------------------------------------------------------------

  /** The finalize of a transfer files one job: it installs the same shard, on the target, at once, and nobody else can
      lease it; where such a job is active, or the identity is taken, it files none. */
  lemma FinalizeFiles(w: World, source: string, agent: string, job: string, maxAttempts: int, now: int, sum: Bytes -> string)
    requires Enabled(w, FinalizeEv(source, agent, job, maxAttempts, now), sum)
    ensures var n := Next(w, FinalizeEv(source, agent, job, maxAttempts, now), sum);
            var s := w.store.jobs[source].shard.value;
            var target := "cas@" + s.target + "@" + s.transfer;
            && n.tables == w.tables && n.disks == w.disks && n.attempts == w.attempts && n.rows == w.rows
            && n.store.approvals == w.store.approvals
            && (forall id :: id in w.store.jobs ==> id in n.store.jobs && n.store.jobs[id] == w.store.jobs[id])
            && (forall id :: id in n.store.jobs && id != job ==> id in w.store.jobs)
            && (job !in w.store.jobs ==>
                  (job in n.store.jobs <==>
                     forall id :: id in w.store.jobs && w.store.jobs[id].status in {JobStore.Queued, JobStore.Running} ==>
                       !(w.store.jobs[id].kind == "install-cas" && w.store.jobs[id].target == target && w.store.jobs[id].affinity == s.target)))
            && (job !in w.store.jobs && job in n.store.jobs ==>
                  var j := n.store.jobs[job];
                  && j.kind == "install-cas" && j.target == target && j.affinity == s.target && j.shard == Some(s)
                  && j.status == JobStore.Queued && j.attempts == 0 && j.notBefore == now && j.priority == w.store.jobs[source].priority
                  && j.maxAttempts == if 0 < maxAttempts then maxAttempts else 5)
  {
  }

  /** A served attempt records its shard's reference; any other, nothing. */
  lemma ReferenceIsRecorded(w: World, a: nat, heard: bool, sum: Bytes -> string)
    requires Enabled(w, EnsureEv(a, heard), sum)
    ensures var n, t := Next(w, EnsureEv(a, heard), sum), w.attempts[a];
            var d, o := Lower(TrimSpace(t.shard.digest)), TrimSpace("erasure:" + t.shard.object_ + ":" + Inventory.Decimal(t.shard.index));
            && n.store == w.store && n.disks == w.disks && n.rows == w.rows
            && (Served(w, a) && d != "" && o != "" ==>
                  && RefFacts.Holds(n.tables, d, o)
                  && forall x, y :: RefFacts.Holds(n.tables, x, y) <==> (x == d && y == o) || RefFacts.Holds(w.tables, x, y))
            && (!Served(w, a) ==> n.tables == w.tables)
            && n.attempts[a].phase == if Served(w, a) && heard then Referenced else Gone
  {
  }

  /** A served attempt puts its agent on record for the shard; any other, nothing. */
  lemma RowIsRecorded(w: World, a: nat, heard: bool, sum: Bytes -> string)
    requires Enabled(w, RecordEv(a, heard), sum)
    ensures var n, t := Next(w, RecordEv(a, heard), sum), w.attempts[a];
            && n.store == w.store && n.tables == w.tables && n.disks == w.disks
            && n.rows == (if Served(w, a) then w.rows[Slot(t.shard.object_, t.shard.index, t.agent) := t.shard.digest] else w.rows)
            && n.attempts[a].phase == if Served(w, a) && heard then Recorded else Gone
  {
  }

  /** An order takes a lease on its shard before any job exists for it, and a lease goes only after the completion of the
      job that was served. */
  lemma LeasesComeAndGo(w: World, s: JobStore.Shard, holder: string, until: int, lease: string, a: nat, sum: Bytes -> string)
    ensures Enabled(w, OrderEv(s, holder, until), sum) ==>
              var n := Next(w, OrderEv(s, holder, until), sum);
              && s.lease in n.tables.leases && n.tables.leases[s.lease] == ObjectRefs.Lease(s.digest, holder, until)
              && s.lease in n.issued && n.issued[s.lease] == Order(s, until) && n.store == w.store
              && forall id :: id in w.tables.leases && id != s.lease ==> id in n.tables.leases && n.tables.leases[id] == w.tables.leases[id]
    ensures Enabled(w, ReleaseEv(lease), sum) ==>
              var n := Next(w, ReleaseEv(lease), sum);
              lease !in n.tables.leases && lease !in n.releasing && n.store == w.store && n.tables.refs == w.tables.refs
    ensures Enabled(w, CompleteEv(a), sum) ==>
              var n := Next(w, CompleteEv(a), sum);
              n.tables == w.tables && n.releasing == w.releasing + (if Served(w, a) then {w.attempts[a].shard.lease} else {})
  {
    if Enabled(w, OrderEv(s, holder, until), sum) {
      assert s.digest != "";
    }
  }
}
