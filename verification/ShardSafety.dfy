/** When the shards that the control plane has on record are really on their agents, garbage collection
    notwithstanding: which steps keep them safe, and that every other step can cost one
    (internal/cas/cas.go, internal/app/app.go). */
module ShardSafety {
  import opened Prelude
  import opened Inventory
  import opened CasInstall
  import ObjectRefs
  import CasStore
  import opened ShardHandover

  // --- What is to be kept ------------------------------------------------------------------------

  /** No collection under way on the agent will remove the object. */
  ghost predicate Spared(w: World, agent: string, digest: string) {
    forall c :: c in w.collections && w.collections[c].agent == agent ==> digest in w.collections[c].keep
  }

  predicate Present(w: World, agent: string, digest: string, sum: Bytes -> string) {
    digest in DiskOf(w, agent) && sum(DiskOf(w, agent)[digest]) == digest
  }

  /** The object is on the agent with its true bytes, and stays there. */
  ghost predicate Safe(w: World, agent: string, digest: string, sum: Bytes -> string) {
    Present(w, agent, digest, sum) && Spared(w, agent, digest)
  }

  /** The attempt has put its shard on the disk and not yet on record. */
  predicate Pending(w: World, a: nat) {
    a in w.attempts && (w.attempts[a].phase == Stored || w.attempts[a].phase == Referenced)
  }

  ghost predicate OnDisk(w: World, sum: Bytes -> string) {
    && (forall a :: Pending(w, a) ==> Safe(w, w.attempts[a].agent, w.attempts[a].shard.digest, sum))
    && forall r :: r in w.rows ==> Safe(w, r.agent, w.rows[r], sum)
  }

  // --- Careful steps -------------------------------------------------------------------------------

  /** The survey keeps whatever is pending or on record on its agent. */
  ghost predicate KeepsAll(w: World, e: Event, sum: Bytes -> string)
    requires e.SurveyEv?
  {
    && (forall a :: Pending(w, a) && w.attempts[a].agent == e.agent ==> w.attempts[a].shard.digest in Kept(w, e, sum))
    && forall r :: r in w.rows && r.agent == e.agent ==> w.rows[r] in Kept(w, e, sum)
  }

  /** A survey keeps all it should; what an attempt puts on its disk is spared by the collections under way there;
      and no damaged file of the right size lies in its place. */
  ghost predicate Careful(w: World, e: Event, sum: Bytes -> string)
    requires Enabled(w, e, sum)
  {
    match e
    case SurveyEv(_, _, _, _, _, _, _) => KeepsAll(w, e, sum)
    case ExtractEv(a, _, _) =>
      Pending(Next(w, e, sum), a) ==> Spared(w, w.attempts[a].agent, w.attempts[a].shard.digest)
    case IngestEv(a, _, agent, _, _, content) =>
      Pending(Next(w, e, sum), a) ==>
        Spared(w, agent, sum(content)) && (sum(content) in DiskOf(w, agent) ==> Present(w, agent, sum(content), sum))
    case _ => true
  }

  /** A disk changes by extraction, ingestion and deletion alone. */
  lemma DiskStep(w: World, e: Event, agent: string, digest: string, sum: Bytes -> string)
    requires Enabled(w, e, sum) && digest in DiskOf(w, agent)
    requires !(e.SweepEv? && w.collections[e.collection].agent == agent && e.name == digest)
    ensures var n := Next(w, e, sum); digest in DiskOf(n, agent) && DiskOf(n, agent)[digest] == DiskOf(w, agent)[digest]
  {
    if e.ExtractEv? {
      assert Grown(DiskOf(w, w.attempts[e.attempt].agent), e.after, sum);
    }
  }

  lemma SparedStays(w: World, e: Event, agent: string, digest: string, sum: Bytes -> string)
    requires Enabled(w, e, sum) && Spared(w, agent, digest)
    requires e.SurveyEv? && e.agent == agent ==> digest in Kept(w, e, sum)
    ensures Spared(Next(w, e, sum), agent, digest)
  {
    var n := Next(w, e, sum);
    forall c | c in n.collections && n.collections[c].agent == agent ensures digest in n.collections[c].keep {
      KeepStep(w, e, c, sum);
      if !(e.SurveyEv? && e.collection == c) {
        NoNewCollection(w, e, c, sum);
      }
    }
  }

  /** What is safe stays safe, unless a survey overlooks it. */
  lemma SafeStays(w: World, e: Event, agent: string, digest: string, sum: Bytes -> string)
    requires Enabled(w, e, sum) && Safe(w, agent, digest, sum)
    requires e.SurveyEv? && e.agent == agent ==> digest in Kept(w, e, sum)
    ensures Safe(Next(w, e, sum), agent, digest, sum)
  {
    SparedStays(w, e, agent, digest, sum);
    DiskStep(w, e, agent, digest, sum);
  }

  lemma ExtractIsPresent(w: World, e: Event, sum: Bytes -> string)
    requires Inv(w) && Enabled(w, e, sum) && Digest(sum) && e.ExtractEv? && Pending(Next(w, e, sum), e.attempt)
    ensures Present(Next(w, e, sum), w.attempts[e.attempt].agent, w.attempts[e.attempt].shard.digest, sum)
  {
    var t := w.attempts[e.attempt];
    AttemptIsIssued(w, e.attempt);
    DigestIsNormal(t.shard.digest);
    ExtractedIsPresent(e.entries, DiskOf(w, t.agent), e.after, t.shard.digest, sum);
  }

  lemma ExtractIsSafe(w: World, e: Event, sum: Bytes -> string)
    requires Inv(w) && Enabled(w, e, sum) && Careful(w, e, sum) && Digest(sum)
    requires e.ExtractEv? && Pending(Next(w, e, sum), e.attempt)
    ensures Safe(Next(w, e, sum), w.attempts[e.attempt].agent, w.attempts[e.attempt].shard.digest, sum)
  {
    ExtractIsPresent(w, e, sum);
  }

  lemma IngestIsSafe(w: World, e: Event, sum: Bytes -> string)
    requires Enabled(w, e, sum) && Careful(w, e, sum) && e.IngestEv? && Pending(Next(w, e, sum), e.attempt)
    ensures Safe(Next(w, e, sum), e.agent, sum(e.content), sum)
  {
  }

  lemma AttemptsSafe(w: World, e: Event, a: nat, sum: Bytes -> string)
    requires Inv(w) && OnDisk(w, sum) && Enabled(w, e, sum) && Careful(w, e, sum) && Digest(sum)
    requires Pending(Next(w, e, sum), a)
    ensures Safe(Next(w, e, sum), Next(w, e, sum).attempts[a].agent, Next(w, e, sum).attempts[a].shard.digest, sum)
  {
    AttemptStep(w, e, a, sum);
    if a !in w.attempts {
      IngestIsSafe(w, e, sum);
    } else if e.ExtractEv? && e.attempt == a {
      ExtractIsSafe(w, e, sum);
    } else {
      SafeStays(w, e, w.attempts[a].agent, w.attempts[a].shard.digest, sum);
    }
  }

  lemma RowsSafe(w: World, e: Event, r: Slot, sum: Bytes -> string)
    requires OnDisk(w, sum) && Enabled(w, e, sum) && Careful(w, e, sum) && r in Next(w, e, sum).rows
    ensures Safe(Next(w, e, sum), r.agent, Next(w, e, sum).rows[r], sum)
  {
    RowStep(w, e, r, sum);
    if e.RecordEv? {
      assert Pending(w, e.attempt);
    }
    SafeStays(w, e, r.agent, Next(w, e, sum).rows[r], sum);
  }

  lemma OnDiskStep(w: World, e: Event, sum: Bytes -> string)
    requires Inv(w) && OnDisk(w, sum) && Enabled(w, e, sum) && Careful(w, e, sum) && Digest(sum)
    ensures OnDisk(Next(w, e, sum), sum)
  {
    var n := Next(w, e, sum);
    forall a | Pending(n, a) ensures Safe(n, n.attempts[a].agent, n.attempts[a].shard.digest, sum) {
      AttemptsSafe(w, e, a, sum);
    }
    forall r | r in n.rows ensures Safe(n, r.agent, n.rows[r], sum) {
      RowsSafe(w, e, r, sum);
    }
  }

  ghost predicate CarefulRun(worlds: seq<World>, events: seq<Event>, sum: Bytes -> string) {
    && Run(worlds, events, sum)
    && forall k :: 0 <= k < |events| ==> Step(worlds[k], events[k], worlds[k + 1], sum) && Careful(worlds[k], events[k], sum)
  }

  /** If all steps are careful, whatever else happens — failed extractions, expired leases, repeated attempts, lost
      responses — every shard row names an object that is on its agent with its true bytes. */
  lemma {:induction false} RecordedShardsStay(worlds: seq<World>, events: seq<Event>, i: nat, sum: Bytes -> string)
    requires CarefulRun(worlds, events, sum) && i < |worlds| && Digest(sum)
    ensures OnDisk(worlds[i], sum)
  {
    if i > 0 {
      RecordedShardsStay(worlds, events, i - 1, sum);
      RunKeepsInv(worlds, events, i - 1, sum);
      assert Step(worlds[i - 1], events[i - 1], worlds[i], sum) && Careful(worlds[i - 1], events[i - 1], sum);
      OnDiskStep(worlds[i - 1], events[i - 1], sum);
    }
  }

  // --- Care is needed ----------------------------------------------------------------------------------

  /** Only deletions by collections under way, references and rows. */
  predicate Finishing(e: Event) {
    e.SweepEv? || e.EnsureEv? || e.RecordEv?
  }

  ghost predicate Leads(w: World, events: seq<Event>, n: World, sum: Bytes -> string)
    decreases |events|
  {
    if events == [] then n == w
    else Enabled(w, events[0], sum) && Leads(Next(w, events[0], sum), events[1..], n, sum)
  }

  /** A shard on record is gone or damaged. */
  predicate Broken(w: World, sum: Bytes -> string) {
    exists r :: r in w.rows && !Present(w, r.agent, w.rows[r], sum)
  }

  /** What is under way can end in a broken record. */
  ghost predicate CanBreak(w: World, sum: Bytes -> string) {
    exists events: seq<Event>, n :: (forall e :: e in events ==> Finishing(e)) && Leads(w, events, n, sum) && Broken(n, sum)
  }

  lemma {:induction false} SafeCannotBreak(w: World, events: seq<Event>, n: World, sum: Bytes -> string)
    requires Inv(w) && OnDisk(w, sum) && Digest(sum) && Leads(w, events, n, sum)
    requires forall e :: e in events ==> Finishing(e)
    ensures !Broken(n, sum)
    decreases |events|
  {
    if events != [] {
      var e := events[0];
      assert e in events && Careful(w, e, sum);
      StepKeepsInv(w, e, sum);
      OnDiskStep(w, e, sum);
      assert forall x :: x in events[1..] ==> x in events;
      SafeCannotBreak(Next(w, e, sum), events[1..], n, sum);
    }
  }

  lemma Onwards(w: World, e: Event, sum: Bytes -> string)
    requires Enabled(w, e, sum) && Finishing(e) && CanBreak(Next(w, e, sum), sum)
    ensures CanBreak(w, sum)
  {
    var next := Next(w, e, sum);
    var events: seq<Event>, n :| (forall x :: x in events ==> Finishing(x)) && Leads(next, events, n, sum) && Broken(n, sum);
    var all := [e] + events;
    assert all[0] == e && all[1..] == events && Leads(w, all, n, sum);
  }

  lemma BrokenCanBreak(w: World, sum: Bytes -> string)
    requires Broken(w, sum)
    ensures CanBreak(w, sum)
  {
    var none: seq<Event> := [];
    assert Leads(w, none, w, sum);
  }

  /** A referenced shard that is not there gets its row, if its agent is served. */
  lemma ReferencedBreaks(w: World, a: nat, sum: Bytes -> string)
    requires a in w.attempts && w.attempts[a].phase == Referenced && Served(w, a)
    requires !Present(w, w.attempts[a].agent, w.attempts[a].shard.digest, sum)
    ensures CanBreak(w, sum)
  {
    var e, t := RecordEv(a, true), w.attempts[a];
    var n := Next(w, e, sum);
    assert Slot(t.shard.object_, t.shard.index, t.agent) in n.rows;
    BrokenCanBreak(n, sum);
    Onwards(w, e, sum);
  }

  lemma PendingBreaks(w: World, a: nat, sum: Bytes -> string)
    requires Pending(w, a) && Served(w, a) && !Present(w, w.attempts[a].agent, w.attempts[a].shard.digest, sum)
    ensures CanBreak(w, sum)
  {
    if w.attempts[a].phase == Stored {
      var e := EnsureEv(a, true);
      ReferencedBreaks(Next(w, e, sum), a, sum);
      Onwards(w, e, sum);
    } else {
      ReferencedBreaks(w, a, sum);
    }
  }

  /** What a collection under way would remove can be removed. */
  lemma SweepTakes(w: World, c: nat, digest: string, sum: Bytes -> string) returns (n: World)
    requires c in w.collections && digest !in w.collections[c].keep && digest in DiskOf(w, w.collections[c].agent)
    ensures Enabled(w, SweepEv(c, digest), sum) && n == Next(w, SweepEv(c, digest), sum)
    ensures !Present(n, w.collections[c].agent, digest, sum)
    ensures n.attempts == w.attempts && n.rows == w.rows && n.store == w.store
  {
    n := Next(w, SweepEv(c, digest), sum);
  }

  lemma UnsafePendingBreaks(w: World, a: nat, sum: Bytes -> string)
    requires Pending(w, a) && Served(w, a) && !Safe(w, w.attempts[a].agent, w.attempts[a].shard.digest, sum)
    ensures CanBreak(w, sum)
  {
    var agent, digest := w.attempts[a].agent, w.attempts[a].shard.digest;
    if Present(w, agent, digest, sum) {
      var c :| c in w.collections && w.collections[c].agent == agent && digest !in w.collections[c].keep;
      var n := SweepTakes(w, c, digest, sum);
      PendingBreaks(n, a, sum);
      Onwards(w, SweepEv(c, digest), sum);
    } else {
      PendingBreaks(w, a, sum);
    }
  }

  lemma UnsafeRowBreaks(w: World, r: Slot, sum: Bytes -> string)
    requires r in w.rows && !Safe(w, r.agent, w.rows[r], sum)
    ensures CanBreak(w, sum)
  {
    var digest := w.rows[r];
    if Present(w, r.agent, digest, sum) {
      var c :| c in w.collections && w.collections[c].agent == r.agent && digest !in w.collections[c].keep;
      var n := SweepTakes(w, c, digest, sum);
      BrokenCanBreak(n, sum);
      Onwards(w, SweepEv(c, digest), sum);
    } else {
      BrokenCanBreak(w, sum);
    }
  }

  ghost predicate AllServed(w: World) {
    forall a :: Pending(w, a) ==> Served(w, a)
  }

  /** Care is exact: from a state in which everything is safe, a step leaves a state whose collections, references
      and rows can end in a broken record if and only if it was not careful, as long as the attempts that are
      pending then are served. */
  lemma CareIsExact(w: World, e: Event, sum: Bytes -> string)
    requires Inv(w) && OnDisk(w, sum) && Enabled(w, e, sum) && Digest(sum) && AllServed(Next(w, e, sum))
    ensures Careful(w, e, sum) <==> !CanBreak(Next(w, e, sum), sum)
  {
    var n := Next(w, e, sum);
    if Careful(w, e, sum) {
      StepKeepsInv(w, e, sum);
      OnDiskStep(w, e, sum);
      forall events: seq<Event>, m | (forall x :: x in events ==> Finishing(x)) && Leads(n, events, m, sum) ensures !Broken(m, sum) {
        SafeCannotBreak(n, events, m, sum);
      }
    } else if e.SurveyEv? {
      CarelessSurvey(w, e, sum);
    } else {
      UnsafePendingBreaks(n, e.attempt, sum);
    }
  }

  lemma CarelessSurvey(w: World, e: Event, sum: Bytes -> string)
    requires Enabled(w, e, sum) && e.SurveyEv? && !KeepsAll(w, e, sum) && AllServed(Next(w, e, sum))
    ensures CanBreak(Next(w, e, sum), sum)
  {
    var n := Next(w, e, sum);
    assert n.collections[e.collection].agent == e.agent && n.collections[e.collection].keep == Kept(w, e, sum);
    if a :| Pending(w, a) && w.attempts[a].agent == e.agent && w.attempts[a].shard.digest !in Kept(w, e, sum) {
      assert Pending(n, a);
      UnsafePendingBreaks(n, a, sum);
    } else {
      var r :| r in w.rows && r.agent == e.agent && w.rows[r] !in Kept(w, e, sum);
      UnsafeRowBreaks(n, r, sum);
    }
  }

  // --- Care that can be checked by the clock ---------------------------------------------------------------

  /** A survey consults the tables while the leases of stored but unreferenced shards run and while no protect job
      has stored a shard that nothing protects yet; what is extracted during a collection was under an unexpired
      lease when that collection made its survey; and protect jobs store nothing during collections, nor over
      damaged files. */
  ghost predicate InTime(w: World, e: Event, sum: Bytes -> string) {
    && (e.SurveyEv? ==>
          e.consulted && forall a :: a in w.attempts && w.attempts[a].phase == Stored && w.attempts[a].agent == e.agent ==>
                           Guarded(w, w.attempts[a], e.now))
    && (e.ExtractEv? && e.attempt in w.attempts ==>
          forall c :: c in w.collections && w.collections[c].agent == w.attempts[e.attempt].agent ==>
                        Foreseen(w, w.collections[c], w.attempts[e.attempt]))
    && (e.IngestEv? ==>
          && (forall c :: c in w.collections ==> w.collections[c].agent != e.agent)
          && (sum(e.content) in DiskOf(w, e.agent) ==> Present(w, e.agent, sum(e.content), sum)))
  }

  predicate Guarded(w: World, t: Attempt, now: int) {
    if t.leased then t.shard.lease in w.issued && now < w.issued[t.shard.lease].until
    else t.shard.digest in ObjectRefs.Protected(w.tables, now)
  }

  predicate Foreseen(w: World, c: Collection, t: Attempt) {
    t.leased && t.shard.lease in c.known && t.shard.lease in w.issued && c.at < w.issued[t.shard.lease].until
  }

  /** Collections keep the shards whose leases ran when they made their surveys. */
  ghost predicate OnTrack(w: World) {
    forall c, l :: c in w.collections && l in w.collections[c].known ==> Tracked(w, w.collections[c], l)
  }

  lemma ProtectedIsKept(w: World, e: Event, d: string, sum: Bytes -> string)
    requires e.SurveyEv? && e.consulted && ValidDigest(d) && d in ObjectRefs.Protected(w.tables, e.now)
    ensures d in Kept(w, e, sum)
  {
    DigestIsNormal(d);
    CasStore.ProtectedIsReachable(w.tables, e.now, d, e.roots, e.casRoot, e.minSize, sum);
  }

  lemma OwnedIsKept(w: World, e: Event, d: string, owner: string, sum: Bytes -> string)
    requires Inv(w) && e.SurveyEv? && e.consulted && ValidDigest(d) && ObjectRefs.Owned(w.tables, d, owner)
    ensures d in Kept(w, e, sum)
  {
    ObjectRefs.OwnedIsProtected(w.tables, d, owner, e.now);
    ProtectedIsKept(w, e, d, sum);
  }

  lemma LeasedIsKept(w: World, e: Event, l: string, sum: Bytes -> string)
    requires Inv(w) && e.SurveyEv? && e.consulted && l in w.issued && e.now < w.issued[l].until
    ensures w.issued[l].shard.digest in Kept(w, e, sum)
  {
    var s := w.issued[l].shard;
    if Owned(w, s) {
      OwnedIsKept(w, e, s.digest, Owner(s), sum);
    } else {
      assert Leased(w, l);
      ProtectedIsKept(w, e, s.digest, sum);
    }
  }

  lemma PendingIsKept(w: World, e: Event, a: nat, sum: Bytes -> string)
    requires Inv(w) && InTime(w, e, sum) && e.SurveyEv? && Pending(w, a) && w.attempts[a].agent == e.agent
    ensures w.attempts[a].shard.digest in Kept(w, e, sum)
  {
    var t := w.attempts[a];
    AttemptIsIssued(w, a);
    if t.phase == Referenced {
      OwnedIsKept(w, e, t.shard.digest, Owner(t.shard), sum);
    } else if t.leased {
      LeasedIsKept(w, e, t.shard.lease, sum);
    } else {
      ProtectedIsKept(w, e, t.shard.digest, sum);
    }
  }

  lemma InTimeIsCareful(w: World, e: Event, sum: Bytes -> string)
    requires Inv(w) && OnTrack(w) && Enabled(w, e, sum) && InTime(w, e, sum)
    ensures Careful(w, e, sum)
  {
    if e.SurveyEv? {
      forall a | Pending(w, a) && w.attempts[a].agent == e.agent ensures w.attempts[a].shard.digest in Kept(w, e, sum) {
        PendingIsKept(w, e, a, sum);
      }
      forall r | r in w.rows && r.agent == e.agent ensures w.rows[r] in Kept(w, e, sum) {
        OwnedIsKept(w, e, w.rows[r], OwnerText(r.object_, r.index), sum);
      }
    } else if e.ExtractEv? {
      AttemptIsIssued(w, e.attempt);
      forall c | c in w.collections && w.collections[c].agent == w.attempts[e.attempt].agent
        ensures w.attempts[e.attempt].shard.digest in w.collections[c].keep
      {
        assert Foreseen(w, w.collections[c], w.attempts[e.attempt]);
      }
    }
  }

  predicate Tracked(w: World, c: Collection, l: string) {
    l in w.issued && (c.at < w.issued[l].until ==> w.issued[l].shard.digest in c.keep)
  }

  lemma NewIsTracked(w: World, e: Event, l: string, sum: Bytes -> string)
    requires Inv(w) && Enabled(w, e, sum) && e.SurveyEv? && e.consulted && l in w.issued
    ensures Tracked(w, Collection(e.agent, Kept(w, e, sum), w.issued.Keys, e.now), l)
  {
    if e.now < w.issued[l].until {
      LeasedIsKept(w, e, l, sum);
    }
  }

  lemma TrackedStays(w: World, e: Event, c: Collection, l: string, sum: Bytes -> string)
    requires Enabled(w, e, sum) && Tracked(w, c, l)
    ensures Tracked(Next(w, e, sum), c, l)
  {
    LeaseStep(w, e, l, sum);
  }

  lemma OnTrackStep(w: World, e: Event, sum: Bytes -> string)
    requires Inv(w) && OnTrack(w) && Enabled(w, e, sum) && InTime(w, e, sum)
    ensures OnTrack(Next(w, e, sum))
  {
    var n := Next(w, e, sum);
    forall c, l | c in n.collections && l in n.collections[c].known ensures Tracked(n, n.collections[c], l) {
      KeepStep(w, e, c, sum);
      if e.SurveyEv? && e.collection == c {
        NewIsTracked(w, e, l, sum);
      } else {
        NoNewCollection(w, e, c, sum);
      }
      TrackedStays(w, e, n.collections[c], l, sum);
    }
  }

  lemma NoNewCollection(w: World, e: Event, c: nat, sum: Bytes -> string)
    requires Enabled(w, e, sum) && c in Next(w, e, sum).collections && !(e.SurveyEv? && e.collection == c)
    ensures c in w.collections
  {
  }

  /** Runs in time are careful. */
  lemma {:induction false} TimelyRunsAreCareful(worlds: seq<World>, events: seq<Event>, i: nat, sum: Bytes -> string)
    requires Run(worlds, events, sum) && i < |worlds| && forall k :: 0 <= k < |events| ==> InTime(worlds[k], events[k], sum)
    ensures OnTrack(worlds[i])
    ensures forall k :: 0 <= k < i ==> Step(worlds[k], events[k], worlds[k + 1], sum) && Careful(worlds[k], events[k], sum)
  {
    if i > 0 {
      TimelyRunsAreCareful(worlds, events, i - 1, sum);
      RunKeepsInv(worlds, events, i - 1, sum);
      assert Step(worlds[i - 1], events[i - 1], worlds[i], sum);
      InTimeIsCareful(worlds[i - 1], events[i - 1], sum);
      OnTrackStep(worlds[i - 1], events[i - 1], sum);
    }
  }

  lemma TimelyShardsStay(worlds: seq<World>, events: seq<Event>, sum: Bytes -> string)
    requires Run(worlds, events, sum) && Digest(sum) && forall k :: 0 <= k < |events| ==> InTime(worlds[k], events[k], sum)
    ensures forall i :: 0 <= i < |worlds| ==> OnDisk(worlds[i], sum)
  {
    TimelyRunsAreCareful(worlds, events, |events|, sum);
    forall i | 0 <= i < |worlds| ensures OnDisk(worlds[i], sum) {
      RecordedShardsStay(worlds, events, i, sum);
    }
  }

  // --- The fate of one object ------------------------------------------------------------------------------

  /** The survey consults the tables, and they protect the digest, in whatever letters. */
  ghost predicate Shielded(w: World, e: Event, digest: string)
    requires e.SurveyEv?
  {
    e.consulted && exists d :: d in ObjectRefs.Protected(w.tables, e.now) && |d| == DIGEST_LENGTH && Lower(d) == digest
  }

  /** The survey meets a payload file with this digest. */
  ghost predicate Found(e: Event, digest: string, sum: Bytes -> string)
    requires e.SurveyEv?
  {
    exists r, f :: r in e.roots && CasStore.Walked(r, e.casRoot) && f in r.files && CasStore.Payload(f, e.minSize) && sum(f.content) == digest
  }

  /** What decides the fate of an object is the survey alone: until its end, a collection can remove an object
      of its node if and only if, at its survey, no file below a root had that content and the tables, if
      they were consulted at all, did not protect it. */
  lemma SweepableIff(worlds: seq<World>, events: seq<Event>, a: nat, i: nat, digest: string, sum: Bytes -> string)
    requires Run(worlds, events, sum) && a < i < |worlds| && events[a].SurveyEv?
    requires forall k :: a < k <= i ==> events[a].collection in worlds[k].collections
    requires digest in DiskOf(worlds[i], events[a].agent)
    ensures Sweepable(worlds[i], events[a].collection, digest) <==> !Shielded(worlds[a], events[a], digest) && !Found(events[a], digest, sum)
  {
    KeepStays(worlds, events, a, i, sum);
    KeptIff(worlds[a], events[a], digest, sum);
  }

  lemma KeptIff(w: World, e: Event, digest: string, sum: Bytes -> string)
    requires e.SurveyEv?
    ensures digest in Kept(w, e, sum) <==> Shielded(w, e, digest) || Found(e, digest, sum)
  {
  }

  lemma KeepStep(w: World, e: Event, c: nat, sum: Bytes -> string)
    requires Enabled(w, e, sum)
    ensures c in w.collections && c in Next(w, e, sum).collections ==> Next(w, e, sum).collections[c] == w.collections[c]
    ensures e.SurveyEv? && e.collection == c ==>
              c in Next(w, e, sum).collections && Next(w, e, sum).collections[c] == Collection(e.agent, Kept(w, e, sum), w.issued.Keys, e.now)
  {
  }

  ghost predicate Keeps(w: World, c: nat, agent: string, keep: set<string>) {
    c in w.collections ==> w.collections[c].agent == agent && w.collections[c].keep == keep
  }

  lemma KeepsOn(w: World, e: Event, n: World, c: nat, agent: string, keep: set<string>, sum: Bytes -> string)
    requires Step(w, e, n, sum) && c in w.collections && Keeps(w, c, agent, keep)
    ensures Keeps(n, c, agent, keep)
  {
    KeepStep(w, e, c, sum);
  }

  lemma SurveyStarts(w: World, e: Event, n: World, sum: Bytes -> string)
    requires Step(w, e, n, sum) && e.SurveyEv?
    ensures Keeps(n, e.collection, e.agent, Kept(w, e, sum))
  {
    KeepStep(w, e, e.collection, sum);
  }

  lemma {:induction false} KeepsAlong(worlds: seq<World>, events: seq<Event>, a: nat, i: nat, c: nat, agent: string, keep: set<string>,
                                      sum: Bytes -> string)
    requires Run(worlds, events, sum) && a <= i < |worlds| && Keeps(worlds[a], c, agent, keep)
    requires forall k :: a <= k < i ==> c in worlds[k].collections
    ensures Keeps(worlds[i], c, agent, keep)
    decreases i
  {
    if a < i {
      KeepsAlong(worlds, events, a, i - 1, c, agent, keep, sum);
      assert Step(worlds[i - 1], events[i - 1], worlds[i], sum);
      KeepsOn(worlds[i - 1], events[i - 1], worlds[i], c, agent, keep, sum);
    }
  }

  lemma KeepStays(worlds: seq<World>, events: seq<Event>, a: nat, i: nat, sum: Bytes -> string)
    requires Run(worlds, events, sum) && a < i < |worlds| && events[a].SurveyEv?
    requires forall k :: a < k < i ==> events[a].collection in worlds[k].collections
    ensures Keeps(worlds[i], events[a].collection, events[a].agent, Kept(worlds[a], events[a], sum))
  {
    assert Step(worlds[a], events[a], worlds[a + 1], sum);
    SurveyStarts(worlds[a], events[a], worlds[a + 1], sum);
    KeepsAlong(worlds, events, a + 1, i, events[a].collection, events[a].agent, Kept(worlds[a], events[a], sum), sum);
  }
}
