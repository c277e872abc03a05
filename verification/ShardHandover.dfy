/** A shard on its way to a reference: the reconciler's order, the source's finalize, the agent's install, the
    completion handler, the protect job that encodes objects where they are, and garbage collection, as the
    steps of one machine over the job store and the reference tables
    (internal/controlplane/erasure_distributed.go, agent_server.go, worker.go). */
module ShardHandover {
  import opened Prelude
  import opened Inventory
  import opened CasManifest
  import opened CasSync
  import opened Agents
  import JobStore
  import ObjectRefs
  import CasStore
  import opened CasInstall

  /** How far an agent's attempt has come; with `Stored` the shard is on its disk. */
  datatype Phase = Begun | Stored | Referenced | Recorded | Gone

  /** An attempt at a shard: of an install job, under the payload of the job as it was leased, or of a protect job,
      which holds no lease on the shard. */
  datatype Attempt = Attempt(agent: string, job: string, shard: JobStore.Shard, leased: bool, phase: Phase)

  datatype Order = Order(shard: JobStore.Shard, until: int)

  /** A shard row of the control plane: shard `index` of an object on an agent. */
  datatype Slot = Slot(object_: string, index: nat, agent: string)

  /** A collection under way: what it keeps, decided by its survey, which took place at time `at` with the
      leases `known` issued. */
  datatype Collection = Collection(agent: string, keep: set<string>, known: set<string>, at: int)

  /** The durable state and what is in flight. `releasing` holds the leases that a completion handler is
      about to release. */
  datatype World = World(
    store: JobStore.State,
    tables: ObjectRefs.State,
    issued: map<string, Order>,
    attempts: map<nat, Attempt>,
    releasing: set<string>,
    disks: map<string, Objects>,
    collections: map<nat, Collection>,
    rows: map<Slot, string>)

  function Start(disks: map<string, Objects>): World {
    World(JobStore.EMPTY, ObjectRefs.EMPTY, map[], map[], {}, disks, map[], map[])
  }

  function DiskOf(w: World, agent: string): Objects {
    if agent in w.disks then w.disks[agent] else map[]
  }

  function OwnerText(object_: string, index: nat): string {
    "erasure:" + object_ + ":" + Decimal(index)
  }

  function Owner(s: JobStore.Shard): string {
    OwnerText(s.object_, s.index)
  }

  // --- Steps ---------------------------------------------------------------------------

  datatype Event =
    | OrderEv(shard: JobStore.Shard, holder: string, until: int)
    | StoreEv(call: JobStore.Event)
    | FinalizeEv(source: string, agent: string, job: string, maxAttempts: int, now: int)
    | BeginEv(attempt: nat, job: string, agent: string)
    | ExtractEv(attempt: nat, entries: seq<Entry>, after: Objects)
    | IngestEv(attempt: nat, job: string, agent: string, object_: string, index: nat, content: Bytes)
    | EnsureEv(attempt: nat, heard: bool)
    | RecordEv(attempt: nat, heard: bool)
    | CompleteEv(attempt: nat)
    | QuitEv(attempt: nat)
    | ReleaseEv(lease: string)
    | ProtectEv(digest: string, kind: string, bytes: int, owner: string)
    | SurveyEv(collection: nat, agent: string, roots: seq<CasStore.Root>, casRoot: string, minSize: int, consulted: bool, now: int)
    | SweepEv(collection: nat, name: string)
    | DoneEv(collection: nat)

  predicate InPhase(w: World, a: nat, phase: Phase) {
    a in w.attempts && w.attempts[a].phase == phase
  }

  function To(w: World, a: nat, phase: Phase): World
    requires a in w.attempts
  {
    w.(attempts := w.attempts[a := w.attempts[a].(phase := phase)])
  }

  /** The archive names the shard in its manifest. */
  ghost predicate Names(entries: seq<Entry>, digest: string) {
    exists i :: i in Manifest(entries) && EqualFold(i.digest, digest)
  }

  /** What an extraction leaves behind. */
  ghost predicate Leaves(entries: seq<Entry>, before: Objects, after: Objects, sum: Bytes -> string) {
    Grown(before, after, sum) && (Installable(entries, before, sum) ==> after == Contents(entries) + before)
  }

  /** Jobs that carry a shard come from an order or from the finalize of its source, and install jobs are
      completed by the attempt that ran them. */
  predicate Ordinary(w: World, call: JobStore.Event) {
    && (call.EnqueueEv? && call.request.shard.Some? ==>
          var s := call.request.shard.value;
          call.request.kind == JobStore.REPLICATE_CAS && s.lease in w.issued && w.issued[s.lease].shard == s)
    && (call.CompleteEv? && call.job in w.store.jobs && w.store.jobs[call.job].shard.Some? ==>
          w.store.jobs[call.job].kind == JobStore.REPLICATE_CAS)
  }

  predicate Sweepable(w: World, c: nat, name: string) {
    c in w.collections && name in DiskOf(w, w.collections[c].agent) && name !in w.collections[c].keep
  }

  ghost predicate Enabled(w: World, e: Event, sum: Bytes -> string) {
    match e
    case OrderEv(s, holder, until) => s.lease !in w.issued && ValidDigest(s.digest) && holder != "" && until != 0
    case StoreEv(call) => JobStore.Lawful(w.store, call) && Ordinary(w, call)
    case FinalizeEv(source, agent, _, _, _) =>
      && JobStore.Held(w.store, source, agent)
      && w.store.jobs[source].kind == JobStore.REPLICATE_CAS && w.store.jobs[source].shard.Some?
    case BeginEv(a, job, agent) =>
      && a !in w.attempts && JobStore.Held(w.store, job, agent)
      && w.store.jobs[job].kind == JobStore.INSTALL_CAS && w.store.jobs[job].shard.Some?
    case ExtractEv(a, entries, after) => InPhase(w, a, Begun) && Leaves(entries, DiskOf(w, w.attempts[a].agent), after, sum)
    case IngestEv(a, job, agent, _, _, content) =>
      && a !in w.attempts && job in w.store.jobs && w.store.jobs[job].kind == JobStore.PROTECT_ERASURE
      && ValidDigest(sum(content))
    case EnsureEv(a, _) => InPhase(w, a, Stored)
    case RecordEv(a, _) => InPhase(w, a, Referenced)
    case CompleteEv(a) => InPhase(w, a, Recorded) && w.attempts[a].leased
    case QuitEv(a) => a in w.attempts
    case ReleaseEv(lease) => lease in w.releasing
    case ProtectEv(_, _, _, _) => true
    case SurveyEv(c, _, _, _, _, _, _) => c !in w.collections
    case SweepEv(c, name) => Sweepable(w, c, name)
    case DoneEv(c) => c in w.collections
  }

  /** The agent still holds the job of its attempt, so the control plane serves it; the worker beside the control
      plane, which runs protect jobs too, writes without being asked. */
  predicate Served(w: World, a: nat)
    requires a in w.attempts
  {
    var t := w.attempts[a];
    JobStore.Held(w.store, t.job, t.agent) || (!t.leased && t.agent == LOCAL)
  }

  /** The file of the object is kept if it has the right size, whatever its bytes. */
  predicate Ingests(disk: Objects, d: string, content: Bytes) {
    d in disk ==> |disk[d]| == |content|
  }

  function Unleased(object_: string, index: nat, d: string, bytes: nat, agent: string): JobStore.Shard {
    JobStore.Shard(object_, index, d, bytes, "", "", agent, agent)
  }

  /** What a step does to the reference tables. */
  function TableEvent(w: World, e: Event): ObjectRefs.Event {
    match e
    case OrderEv(s, holder, until) => ObjectRefs.AcquireEv(s.lease, ObjectRefs.Lease(s.digest, holder, until))
    case EnsureEv(a, _) =>
      if a in w.attempts && Served(w, a)
      then
        var s := w.attempts[a].shard;
        ObjectRefs.EnsureEv(s.digest, "erasure-shard", s.bytes, Owner(s))
      else ObjectRefs.IdleEv
    case ReleaseEv(lease) => ObjectRefs.DropEv(lease)
    case ProtectEv(d, kind, bytes, owner) => ObjectRefs.EnsureEv(d, kind, bytes, owner)
    case _ => ObjectRefs.IdleEv
  }

  /** The install job that a finalize files for the target of its transfer. */
  function InstallRequest(source: JobStore.Job, s: JobStore.Shard, maxAttempts: int, now: int): JobStore.Request {
    JobStore.Request(JobStore.INSTALL_CAS, "cas@" + s.target + "@" + s.transfer, s.target, None, Some(s),
                     None, source.priority, 0, maxAttempts, Some(now))
  }

  function Store(w: World, e: Event): JobStore.State {
    match e
    case StoreEv(call) => JobStore.Apply(w.store, call)
    case FinalizeEv(source, _, job, maxAttempts, now) =>
      if source in w.store.jobs && w.store.jobs[source].shard.Some?
      then
        var j := w.store.jobs[source];
        JobStore.Enqueue(w.store, InstallRequest(j, j.shard.value, maxAttempts, now), job, now)
      else w.store
    case CompleteEv(a) =>
      if a in w.attempts then JobStore.Complete(w.store, w.attempts[a].job, w.attempts[a].agent) else w.store
    case _ => w.store
  }

  /** What a step does to everything but the job store and the reference tables. */
  ghost function Rest(w: World, e: Event, sum: Bytes -> string): World
    requires Enabled(w, e, sum)
  {
    match e
    case OrderEv(s, _, until) => w.(issued := w.issued[s.lease := Order(s, until)])
    case BeginEv(a, job, agent) =>
      w.(attempts := w.attempts[a := Attempt(agent, job, w.store.jobs[job].shard.value, true, Begun)])
    case ExtractEv(a, entries, after) =>
      var agent := w.attempts[a].agent;
      var good := Installable(entries, DiskOf(w, agent), sum) && Names(entries, w.attempts[a].shard.digest);
      To(w, a, if good then Stored else Gone).(disks := w.disks[agent := after])
    case IngestEv(a, job, agent, object_, index, content) =>
      var d, disk := sum(content), DiskOf(w, agent);
      var phase := if Ingests(disk, d, content) then Stored else Gone;
      w.(attempts := w.attempts[a := Attempt(agent, job, Unleased(object_, index, d, |content|, agent), false, phase)],
         disks := if d in disk then w.disks else w.disks[agent := disk[d := content]])
    case EnsureEv(a, heard) => To(w, a, if Served(w, a) && heard then Referenced else Gone)
    case RecordEv(a, heard) =>
      var t := w.attempts[a];
      To(w, a, if Served(w, a) && heard then Recorded else Gone).(
        rows := if Served(w, a) then w.rows[Slot(t.shard.object_, t.shard.index, t.agent) := t.shard.digest] else w.rows)
    case CompleteEv(a) =>
      To(w, a, Gone).(releasing := w.releasing + if Served(w, a) then {w.attempts[a].shard.lease} else {})
    case QuitEv(a) => To(w, a, Gone)
    case ReleaseEv(lease) => w.(releasing := w.releasing - {lease})
    case SurveyEv(c, agent, roots, casRoot, minSize, consulted, now) =>
      w.(collections := w.collections[c := Collection(agent, Kept(w, e, sum), w.issued.Keys, now)])
    case SweepEv(c, name) =>
      var agent := w.collections[c].agent;
      w.(disks := w.disks[agent := DiskOf(w, agent) - {name}])
    case DoneEv(c) => w.(collections := w.collections - {c})
    case _ => w
  }

  /** What a survey decides to keep. A node that cannot open the control plane's store, or gets an error from
      it, collects with no protected digests. */
  ghost function Kept(w: World, e: Event, sum: Bytes -> string): set<string>
    requires e.SurveyEv?
  {
    CasStore.Reachable(e.roots, e.casRoot, e.minSize, if e.consulted then ObjectRefs.Protected(w.tables, e.now) else {}, sum)
  }

  ghost function Next(w: World, e: Event, sum: Bytes -> string): World
    requires Enabled(w, e, sum)
  {
    Rest(w, e, sum).(store := Store(w, e), tables := ObjectRefs.Apply(w.tables, TableEvent(w, e)))
  }

  ghost predicate Step(w: World, e: Event, n: World, sum: Bytes -> string) {
    Enabled(w, e, sum) && n == Next(w, e, sum)
  }

  /** A survey changes nothing but what is under way. */
  lemma SurveyNext(w: World, e: Event, sum: Bytes -> string)
    requires Enabled(w, e, sum) && e.SurveyEv?
    ensures Next(w, e, sum) == w.(collections := w.collections[e.collection := Collection(e.agent, Kept(w, e, sum), w.issued.Keys, e.now)])
  {
  }

  ghost predicate Run(worlds: seq<World>, events: seq<Event>, sum: Bytes -> string) {
    && |worlds| == |events| + 1
    && (exists disks :: worlds[0] == Start(disks))
    && forall i :: 0 <= i < |events| ==> Step(worlds[i], events[i], worlds[i + 1], sum)
  }

  // --- The install step of the worker -------------------------------------------------------

  /** Extraction and the search of the manifest for the shard: an attempt proceeds exactly when both succeed. */
  method InstallShard(disk: CasInstall.Store, entries: seq<Entry>, digest: string, sum: Bytes -> string) returns (found: bool)
    modifies disk
    ensures Leaves(entries, old(disk.objects), disk.objects, sum)
    ensures found <==> Installable(entries, old(disk.objects), sum) && Names(entries, digest)
  {
    var ok := disk.Extract(entries, sum);
    if !ok {
      return false;
    }
    var items := Manifest(entries);
    for n := 0 to |items|
      invariant forall m :: 0 <= m < n ==> !EqualFold(items[m].digest, digest)
    {
      if EqualFold(items[n].digest, digest) {
        assert items[n] in Manifest(entries);
        return true;
      }
    }
    return false;
  }

  /** An attempt that proceeds has the shard's true bytes on its disk. */
  lemma ExtractedIsPresent(entries: seq<Entry>, before: Objects, after: Objects, digest: string, sum: Bytes -> string)
    requires Leaves(entries, before, after, sum) && Installable(entries, before, sum) && Names(entries, digest)
    requires Digest(sum) && Lower(digest) == digest
    ensures digest in after && sum(after[digest]) == digest
  {
    var i :| i in Manifest(entries) && EqualFold(i.digest, digest);
    assert Listed(i, Contents(entries), Contents(entries) + before, sum);
    assert Lower(sum(after[i.digest])) == sum(after[i.digest]);
  }

  // --- Names ---------------------------------------------------------------------------------

  lemma DecimalEnds(n: nat)
    ensures !Blank(Decimal(n)[|Decimal(n)| - 1])
  {
    assert forall i :: 0 <= i < 10 ==> !Blank(DIGITS[i]);
  }

  lemma OwnerIsTrimmed(object_: string, index: nat)
    ensures TrimSpace(OwnerText(object_, index)) == OwnerText(object_, index) != ""
  {
    DecimalEnds(index);
    var s := OwnerText(object_, index);
    assert s[0] == 'e' && s[|s| - 1] == Decimal(index)[|Decimal(index)| - 1];
    TrimNothing(s);
  }

  lemma DigestIsNormal(d: string)
    requires ValidDigest(d)
    ensures ObjectRefs.Norm(d) == d && Lower(d) == d && d != ""
  {
    assert HexDigit(d[0]) && HexDigit(d[|d| - 1]);
    TrimNothing(d);
    assert Lower(d) == d;
  }

  // --- The handover invariant -------------------------------------------------------------------

  predicate Owned(w: World, s: JobStore.Shard) {
    ObjectRefs.Owned(w.tables, s.digest, Owner(s))
  }

  predicate Leased(w: World, lease: string)
    requires lease in w.issued
  {
    ObjectRefs.Leased(w.tables, lease, w.issued[lease].shard.digest, w.issued[lease].until)
  }

  /** Every order still has its lease, or its reference. */
  ghost predicate OrdersHeld(w: World) {
    forall l :: l in w.issued ==>
                  var s := w.issued[l].shard;
                  s.lease == l && ValidDigest(s.digest) && (Leased(w, l) || Owned(w, s))
  }

  predicate Issued(w: World, s: JobStore.Shard) {
    s.lease in w.issued && w.issued[s.lease].shard == s
  }

  predicate Carries(w: World, job: string, s: JobStore.Shard) {
    job in w.store.jobs && w.store.jobs[job].kind == JobStore.INSTALL_CAS && w.store.jobs[job].shard == Some(s)
  }

  /** Every shard on a job was ordered, and an install that succeeded left its reference. */
  ghost predicate JobsIssued(w: World) {
    forall id :: id in w.store.jobs && w.store.jobs[id].shard.Some? ==>
                   var j := w.store.jobs[id];
                   && Issued(w, j.shard.value)
                   && (j.kind == JobStore.REPLICATE_CAS || j.kind == JobStore.INSTALL_CAS)
                   && (j.kind == JobStore.INSTALL_CAS && j.status == JobStore.Succeeded ==> Owned(w, j.shard.value))
  }

  ghost predicate AttemptsIssued(w: World) {
    forall a :: a in w.attempts ==>
                  var t := w.attempts[a];
                  && (if t.leased then Carries(w, t.job, t.shard) else ValidDigest(t.shard.digest))
                  && (t.phase == Referenced || t.phase == Recorded ==> Owned(w, t.shard))
  }

  /** A lease about to be released has been replaced by a reference, and so has every recorded row. */
  ghost predicate Settled(w: World) {
    && (forall l :: l in w.releasing ==> l in w.issued && Owned(w, w.issued[l].shard))
    && forall r :: r in w.rows ==> ValidDigest(w.rows[r]) && ObjectRefs.Owned(w.tables, w.rows[r], OwnerText(r.object_, r.index))
  }

  ghost predicate Inv(w: World) {
    ObjectRefs.Balanced(w.tables) && OrdersHeld(w) && JobsIssued(w) && AttemptsIssued(w) && Settled(w)
  }

  /** No step releases a reference. */
  lemma ReferencesStay(w: World, e: Event, sum: Bytes -> string)
    requires Enabled(w, e, sum)
    ensures forall d, o :: ObjectRefs.Owned(w.tables, d, o) ==> ObjectRefs.Owned(Next(w, e, sum).tables, d, o)
  {
    var t := TableEvent(w, e);
    forall d, o | ObjectRefs.Owned(w.tables, d, o) ensures ObjectRefs.Owned(Next(w, e, sum).tables, d, o) {
      ObjectRefs.OwnedStays(w.tables, t, d, o);
    }
  }

  /** The discipline of every transfer, derived: a step that drops or replaces its lease finds its
      reference recorded, and no step releases that reference or adjusts a count. */
  lemma StepIsDisciplined(w: World, e: Event, lease: string, sum: Bytes -> string)
    requires Inv(w) && Enabled(w, e, sum) && lease in w.issued
    ensures var o := w.issued[lease];
            ObjectRefs.Disciplined(w.tables, TableEvent(w, e), lease, o.shard.digest, Owner(o.shard), o.until)
  {
  }

  lemma TablesStep(w: World, e: Event, sum: Bytes -> string)
    requires Inv(w) && Enabled(w, e, sum)
    ensures ObjectRefs.Balanced(Next(w, e, sum).tables) && OrdersHeld(Next(w, e, sum))
  {
    var t, n := TableEvent(w, e), Next(w, e, sum);
    ObjectRefs.RunKeepsBalance([w.tables, n.tables], [t], 1);
    forall l | l in n.issued
      ensures var s := n.issued[l].shard; s.lease == l && ValidDigest(s.digest) && (Leased(n, l) || Owned(n, s))
    {
      if l in w.issued {
        var o := w.issued[l];
        StepIsDisciplined(w, e, l, sum);
        OwnerIsTrimmed(o.shard.object_, o.shard.index);
        DigestIsNormal(o.shard.digest);
        ObjectRefs.HandoverStep(w.tables, t, l, o.shard.digest, Owner(o.shard), o.until);
      } else {
        DigestIsNormal(n.issued[l].shard.digest);
      }
    }
  }

  /** A call of the job store leaves kind and shard of a job alone, and only its holder's completion
      makes it succeed. */
  lemma CallKeepsShard(s: JobStore.State, call: JobStore.Event, id: string)
    requires JobStore.Lawful(s, call) && id in s.jobs
    ensures var t := JobStore.Apply(s, call);
            && id in t.jobs && t.jobs[id].kind == s.jobs[id].kind && t.jobs[id].shard == s.jobs[id].shard
            && (t.jobs[id].status == JobStore.Succeeded ==> s.jobs[id].status == JobStore.Succeeded || (call.CompleteEv? && call.job == id))
  {
    if call.LeaseEv? {
      assert id in call.chosen ==> JobStore.Leasable(s.jobs[id], call.owner, call.now);
    }
  }

  lemma JobStays(w: World, e: Event, id: string, sum: Bytes -> string)
    requires Enabled(w, e, sum) && id in w.store.jobs
    ensures var n := Next(w, e, sum);
            && id in n.store.jobs && n.store.jobs[id].kind == w.store.jobs[id].kind && n.store.jobs[id].shard == w.store.jobs[id].shard
            && (n.store.jobs[id].status == JobStore.Succeeded && w.store.jobs[id].kind == JobStore.INSTALL_CAS && w.store.jobs[id].shard.Some? ==>
                  w.store.jobs[id].status == JobStore.Succeeded || (e.CompleteEv? && w.attempts[e.attempt].job == id))
  {
    if e.StoreEv? {
      CallKeepsShard(w.store, e.call, id);
    }
  }

  /** A job that appears carries a shard that was ordered, and has not succeeded as an install. */
  lemma NewJobIssued(w: World, e: Event, id: string, sum: Bytes -> string)
    requires Inv(w) && Enabled(w, e, sum) && id in Next(w, e, sum).store.jobs && id !in w.store.jobs
    requires Next(w, e, sum).store.jobs[id].shard.Some?
    ensures var j := Next(w, e, sum).store.jobs[id];
            && Issued(w, j.shard.value) && (j.kind == JobStore.REPLICATE_CAS || j.kind == JobStore.INSTALL_CAS)
            && (j.kind == JobStore.INSTALL_CAS ==> j.status == JobStore.Queued)
  {
    assert JobStore.INSTALL_CAS[0] != JobStore.REPLICATE_CAS[0];
  }

  lemma JobsStep(w: World, e: Event, sum: Bytes -> string)
    requires Inv(w) && Enabled(w, e, sum)
    ensures JobsIssued(Next(w, e, sum))
  {
    var n := Next(w, e, sum);
    ReferencesStay(w, e, sum);
    forall id | id in n.store.jobs && n.store.jobs[id].shard.Some?
      ensures var j := n.store.jobs[id];
              && Issued(n, j.shard.value)
              && (j.kind == JobStore.REPLICATE_CAS || j.kind == JobStore.INSTALL_CAS)
              && (j.kind == JobStore.INSTALL_CAS && j.status == JobStore.Succeeded ==> Owned(n, j.shard.value))
    {
      if id in w.store.jobs {
        JobStays(w, e, id, sum);
      } else {
        NewJobIssued(w, e, id, sum);
      }
    }
  }

  /** Where an attempt of the next world comes from: it began now, or kept what it is about, and reached
      its reference or its row only by being served. */
  lemma AttemptStep(w: World, e: Event, a: nat, sum: Bytes -> string)
    requires Enabled(w, e, sum) && a in Next(w, e, sum).attempts
    ensures var t := Next(w, e, sum).attempts[a];
            if a !in w.attempts then
              if t.leased then
                && t.phase == Begun && t.job in w.store.jobs && w.store.jobs[t.job].kind == JobStore.INSTALL_CAS
                && w.store.jobs[t.job].shard == Some(t.shard)
              else
                && (t.phase == Stored || t.phase == Gone) && e.IngestEv? && e.attempt == a
                && t.agent == e.agent && t.shard.digest == sum(e.content) && ValidDigest(t.shard.digest)
            else
              && t.job == w.attempts[a].job && t.shard == w.attempts[a].shard && t.agent == w.attempts[a].agent
              && t.leased == w.attempts[a].leased
              && (t.phase == Stored ==> w.attempts[a].phase == Stored || (e.ExtractEv? && e.attempt == a))
              && (t.phase == Referenced ==> w.attempts[a].phase == Referenced || (e.EnsureEv? && e.attempt == a && Served(w, a)))
              && (t.phase == Recorded ==> w.attempts[a].phase == Recorded || w.attempts[a].phase == Referenced)
  {
  }

  lemma AttemptsStep(w: World, e: Event, sum: Bytes -> string)
    requires Inv(w) && Enabled(w, e, sum)
    ensures AttemptsIssued(Next(w, e, sum))
  {
    var n := Next(w, e, sum);
    ReferencesStay(w, e, sum);
    forall a | a in n.attempts
      ensures var t := n.attempts[a];
              && (if t.leased then Carries(n, t.job, t.shard) else ValidDigest(t.shard.digest))
              && (t.phase == Referenced || t.phase == Recorded ==> Owned(n, t.shard))
    {
      AttemptStep(w, e, a, sum);
      if n.attempts[a].leased {
        JobStays(w, e, n.attempts[a].job, sum);
      }
      if e.EnsureEv? && e.attempt == a && Served(w, a) {
        EnsureOwns(w, e, sum);
      }
    }
  }

  /** Rows come from attempts that were recorded. */
  lemma RowStep(w: World, e: Event, r: Slot, sum: Bytes -> string)
    requires Enabled(w, e, sum) && r in Next(w, e, sum).rows
    ensures var d := Next(w, e, sum).rows[r];
            || (r in w.rows && w.rows[r] == d)
            || (&& e.RecordEv? && w.attempts[e.attempt].agent == r.agent && w.attempts[e.attempt].shard.digest == d
                && w.attempts[e.attempt].shard.object_ == r.object_ && w.attempts[e.attempt].shard.index == r.index)
  {
  }

  /** Leases to be released come from attempts that completed, and orders are never withdrawn. */
  lemma LeaseStep(w: World, e: Event, lease: string, sum: Bytes -> string)
    requires Enabled(w, e, sum)
    ensures lease in w.issued ==> lease in Next(w, e, sum).issued && Next(w, e, sum).issued[lease] == w.issued[lease]
    ensures lease in Next(w, e, sum).releasing ==>
              lease in w.releasing || (e.CompleteEv? && w.attempts[e.attempt].shard.lease == lease)
  {
  }

  lemma SettledStep(w: World, e: Event, sum: Bytes -> string)
    requires Inv(w) && Enabled(w, e, sum)
    ensures Settled(Next(w, e, sum))
  {
    var n := Next(w, e, sum);
    ReferencesStay(w, e, sum);
    if e.CompleteEv? || e.RecordEv? {
      AttemptIsIssued(w, e.attempt);
    }
    forall l | l in n.releasing ensures l in n.issued && Owned(n, n.issued[l].shard) {
      LeaseStep(w, e, l, sum);
    }
    forall r | r in n.rows ensures ValidDigest(n.rows[r]) && ObjectRefs.Owned(n.tables, n.rows[r], OwnerText(r.object_, r.index)) {
      RowStep(w, e, r, sum);
    }
  }

  lemma AttemptIsIssued(w: World, a: nat)
    requires Inv(w) && a in w.attempts
    ensures ValidDigest(w.attempts[a].shard.digest)
    ensures w.attempts[a].leased ==> Issued(w, w.attempts[a].shard) && Carries(w, w.attempts[a].job, w.attempts[a].shard)
    ensures w.attempts[a].phase == Referenced || w.attempts[a].phase == Recorded ==> Owned(w, w.attempts[a].shard)
  {
  }

  lemma EnsureOwns(w: World, e: Event, sum: Bytes -> string)
    requires Inv(w) && Enabled(w, e, sum) && e.EnsureEv? && Served(w, e.attempt)
    ensures Owned(Next(w, e, sum), w.attempts[e.attempt].shard)
    ensures var s := w.attempts[e.attempt].shard; ObjectRefs.Refers(TableEvent(w, e), s.digest, Owner(s))
  {
    var s := w.attempts[e.attempt].shard;
    AttemptIsIssued(w, e.attempt);
    OwnerIsTrimmed(s.object_, s.index);
    DigestIsNormal(s.digest);
  }

  lemma StepKeepsInv(w: World, e: Event, sum: Bytes -> string)
    requires Inv(w) && Enabled(w, e, sum)
    ensures Inv(Next(w, e, sum))
  {
    TablesStep(w, e, sum);
    JobsStep(w, e, sum);
    AttemptsStep(w, e, sum);
    SettledStep(w, e, sum);
  }

  lemma {:induction false} RunKeepsInv(worlds: seq<World>, events: seq<Event>, i: nat, sum: Bytes -> string)
    requires Run(worlds, events, sum) && i < |worlds|
    ensures Inv(worlds[i])
  {
    if i > 0 {
      RunKeepsInv(worlds, events, i - 1, sum);
      var w, e := worlds[i - 1], events[i - 1];
      assert Step(w, e, worlds[i], sum);
      StepKeepsInv(w, e, sum);
    }
  }

  // --- Protection -------------------------------------------------------------------------------

  function TablesOf(worlds: seq<World>): seq<ObjectRefs.State> {
    seq(|worlds|, i requires 0 <= i < |worlds| => worlds[i].tables)
  }

  function TableEvents(worlds: seq<World>, events: seq<Event>): seq<ObjectRefs.Event>
    requires |worlds| > |events|
  {
    seq(|events|, i requires 0 <= i < |events| => TableEvent(worlds[i], events[i]))
  }

  lemma OrderStays(w: World, e: Event, n: World, lease: string, sum: Bytes -> string)
    requires Step(w, e, n, sum) && lease in w.issued
    ensures lease in n.issued && n.issued[lease] == w.issued[lease]
  {
    LeaseStep(w, e, lease, sum);
  }

  lemma {:induction false} OrdersStay(worlds: seq<World>, events: seq<Event>, a: nat, b: nat, lease: string, sum: Bytes -> string)
    requires Run(worlds, events, sum) && a <= b < |worlds| && lease in worlds[a].issued
    ensures lease in worlds[b].issued && worlds[b].issued[lease] == worlds[a].issued[lease]
    decreases b
  {
    if a < b {
      OrdersStay(worlds, events, a, b - 1, lease, sum);
      assert Step(worlds[b - 1], events[b - 1], worlds[b], sum);
      OrderStays(worlds[b - 1], events[b - 1], worlds[b], lease, sum);
    }
  }

  /** Every run of the machine is a run of the reference tables, and from its order on every transfer obeys
      the handover discipline. */
  lemma RunIsDisciplined(worlds: seq<World>, events: seq<Event>, a: nat, lease: string, sum: Bytes -> string)
    requires Run(worlds, events, sum) && a < |worlds| && lease in worlds[a].issued
    ensures ObjectRefs.Run(TablesOf(worlds), TableEvents(worlds, events))
    ensures var o, ts, es := worlds[a].issued[lease], TablesOf(worlds), TableEvents(worlds, events);
            forall k :: a <= k < |events| ==> ObjectRefs.Disciplined(ts[k], es[k], lease, o.shard.digest, Owner(o.shard), o.until)
  {
    var ts, es := TablesOf(worlds), TableEvents(worlds, events);
    forall k | 0 <= k < |events| ensures ts[k + 1] == ObjectRefs.Apply(ts[k], es[k]) {
      assert Step(worlds[k], events[k], worlds[k + 1], sum);
    }
    var o := worlds[a].issued[lease];
    forall k | a <= k < |events| ensures ObjectRefs.Disciplined(ts[k], es[k], lease, o.shard.digest, Owner(o.shard), o.until) {
      RunKeepsInv(worlds, events, k, sum);
      OrdersStay(worlds, events, a, k, lease, sum);
      assert Step(worlds[k], events[k], worlds[k + 1], sum);
      StepIsDisciplined(worlds[k], events[k], lease, sum);
    }
  }

  lemma OrderLeases(w: World, e: Event, sum: Bytes -> string)
    requires Enabled(w, e, sum) && e.OrderEv?
    ensures var n, l := Next(w, e, sum), e.shard.lease; l in n.issued && n.issued[l] == Order(e.shard, e.until) && Leased(n, l)
    ensures ValidDigest(e.shard.digest)
  {
    DigestIsNormal(e.shard.digest);
  }

  lemma SuffixRuns(ts: seq<ObjectRefs.State>, es: seq<ObjectRefs.Event>, a: nat)
    requires ObjectRefs.Run(ts, es) && a < |ts|
    ensures ObjectRefs.Run(ts[a..], es[a..])
  {
  }

  lemma SuffixDisciplined(ts: seq<ObjectRefs.State>, es: seq<ObjectRefs.Event>, a: nat, o: Order)
    requires |ts| == |es| + 1 && a < |ts|
    requires forall k :: a <= k < |es| ==> ObjectRefs.Disciplined(ts[k], es[k], o.shard.lease, o.shard.digest, Owner(o.shard), o.until)
    ensures forall k :: 0 <= k < |es[a..]| ==>
              ObjectRefs.Disciplined(ts[a..][k], es[a..][k], o.shard.lease, o.shard.digest, Owner(o.shard), o.until)
  {
  }

  lemma SuffixRefers(es: seq<ObjectRefs.Event>, a: nat, i: nat, o: Order)
    requires a <= i <= |es| && exists j :: a <= j < i && ObjectRefs.Refers(es[j], o.shard.digest, Owner(o.shard))
    ensures exists j :: 0 <= j < i - a && ObjectRefs.Refers(es[a..][j], o.shard.digest, Owner(o.shard))
  {
    var j :| a <= j < i && ObjectRefs.Refers(es[j], o.shard.digest, Owner(o.shard));
    assert es[a..][j - a] == es[j];
  }

  lemma KeptAlong(ts: seq<ObjectRefs.State>, es: seq<ObjectRefs.Event>, n: nat, o: Order, survey: Event, sum: Bytes -> string)
    requires ObjectRefs.Run(ts, es) && n < |ts| && ObjectRefs.Balanced(ts[0]) && ValidDigest(o.shard.digest)
    requires ObjectRefs.Leased(ts[0], o.shard.lease, o.shard.digest, o.until)
    requires forall k :: 0 <= k < |es| ==> ObjectRefs.Disciplined(ts[k], es[k], o.shard.lease, o.shard.digest, Owner(o.shard), o.until)
    requires survey.SurveyEv?
    requires survey.now < o.until || exists j :: 0 <= j < n && ObjectRefs.Refers(es[j], o.shard.digest, Owner(o.shard))
    ensures o.shard.digest in CasStore.Reachable(survey.roots, survey.casRoot, survey.minSize, ObjectRefs.Protected(ts[n], survey.now), sum)
  {
    DigestIsNormal(o.shard.digest);
    OwnerIsTrimmed(o.shard.object_, o.shard.index);
    CasStore.TransferSurvivesCollection(ts, es, n, o.shard.lease, o.shard.digest, Owner(o.shard), o.until, survey.now,
                                        survey.roots, survey.casRoot, survey.minSize, sum);
  }

  /** The same protection, counted from a later point of a run of the tables. */
  lemma KeptFrom(ts: seq<ObjectRefs.State>, es: seq<ObjectRefs.Event>, a: nat, i: nat, o: Order, survey: Event, sum: Bytes -> string)
    requires ObjectRefs.Run(ts, es) && a <= i < |ts| && ObjectRefs.Balanced(ts[a]) && ValidDigest(o.shard.digest)
    requires ObjectRefs.Leased(ts[a], o.shard.lease, o.shard.digest, o.until)
    requires forall k :: a <= k < |es| ==> ObjectRefs.Disciplined(ts[k], es[k], o.shard.lease, o.shard.digest, Owner(o.shard), o.until)
    requires survey.SurveyEv?
    requires survey.now < o.until || exists j :: a <= j < i && ObjectRefs.Refers(es[j], o.shard.digest, Owner(o.shard))
    ensures o.shard.digest in CasStore.Reachable(survey.roots, survey.casRoot, survey.minSize, ObjectRefs.Protected(ts[i], survey.now), sum)
  {
    SuffixRuns(ts, es, a);
    SuffixDisciplined(ts, es, a, o);
    if !(survey.now < o.until) {
      SuffixRefers(es, a, i, o);
    }
    var later, steps := ts[a..], es[a..];
    assert later[0] == ts[a] && later[i - a] == ts[i];
    assert ObjectRefs.Leased(later[0], o.shard.lease, o.shard.digest, o.until) && ObjectRefs.Balanced(later[0]);
    KeptAlong(later, steps, i - a, o, survey, sum);
  }

  lemma OrderStarts(worlds: seq<World>, events: seq<Event>, a: nat, sum: Bytes -> string)
    requires Run(worlds, events, sum) && a < |events| && events[a].OrderEv?
    ensures var l := events[a].shard.lease;
            && l in worlds[a + 1].issued && worlds[a + 1].issued[l] == Order(events[a].shard, events[a].until)
            && Leased(worlds[a + 1], l) && ObjectRefs.Balanced(worlds[a + 1].tables) && ValidDigest(events[a].shard.digest)
  {
    assert Step(worlds[a], events[a], worlds[a + 1], sum);
    OrderLeases(worlds[a], events[a], sum);
    RunKeepsInv(worlds, events, a + 1, sum);
  }

  /** Some attempt recorded the reference of the shard. */
  ghost predicate Referred(worlds: seq<World>, events: seq<Event>, a: nat, i: nat, s: JobStore.Shard)
    requires a <= i <= |events| < |worlds|
  {
    exists j :: a <= j < i && ObjectRefs.Refers(TableEvent(worlds[j], events[j]), s.digest, Owner(s))
  }

  /** After its order a shard is kept by every collection whose survey consults the tables before the lease
      expires, and, once any attempt recorded the reference, by every such collection at all. */
  lemma OrderedShardIsKept(worlds: seq<World>, events: seq<Event>, a: nat, i: nat, survey: Event, sum: Bytes -> string)
    requires Run(worlds, events, sum) && a < i < |worlds| && events[a].OrderEv?
    requires survey.SurveyEv? && survey.consulted
    requires survey.now < events[a].until || Referred(worlds, events, a + 1, i, events[a].shard)
    ensures events[a].shard.digest in Kept(worlds[i], survey, sum)
  {
    OrderStarts(worlds, events, a, sum);
    RunIsDisciplined(worlds, events, a + 1, events[a].shard.lease, sum);
    var ts, es, o := TablesOf(worlds), TableEvents(worlds, events), Order(events[a].shard, events[a].until);
    if Referred(worlds, events, a + 1, i, o.shard) {
      var j :| a + 1 <= j < i && ObjectRefs.Refers(TableEvent(worlds[j], events[j]), o.shard.digest, Owner(o.shard));
      assert ObjectRefs.Refers(es[j], o.shard.digest, Owner(o.shard));
    }
    KeptFrom(ts, es, a + 1, i, o, survey, sum);
  }

  /** An install job that succeeded, and a shard row, rest on a reference that protects the shard for ever. */
  lemma InstalledIsProtected(worlds: seq<World>, events: seq<Event>, i: nat, now: int, sum: Bytes -> string)
    requires Run(worlds, events, sum) && i < |worlds|
    ensures forall id :: id in worlds[i].store.jobs && worlds[i].store.jobs[id].kind == JobStore.INSTALL_CAS
                         && worlds[i].store.jobs[id].status == JobStore.Succeeded && worlds[i].store.jobs[id].shard.Some? ==>
                           worlds[i].store.jobs[id].shard.value.digest in ObjectRefs.Protected(worlds[i].tables, now)
    ensures forall r :: r in worlds[i].rows ==> worlds[i].rows[r] in ObjectRefs.Protected(worlds[i].tables, now)
  {
    RunKeepsInv(worlds, events, i, sum);
    forall d, o | ObjectRefs.Owned(worlds[i].tables, d, o) ensures d in ObjectRefs.Protected(worlds[i].tables, now) {
      ObjectRefs.OwnedIsProtected(worlds[i].tables, d, o, now);
    }
  }
}
