/** Runs of the handover machine in which a recorded shard is lost to a collection that made its survey
    too early, without the tables, after the lease had expired, or while a protect job had stored the shard
    without any lease (internal/app/app.go, cas gc; internal/controlplane/erasure_distributed.go). */
module ShardLoss {
  import opened Prelude
  import opened Inventory
  import opened CasManifest
  import opened CasSync
  import opened CasInstall
  import JobStore
  import ObjectRefs
  import opened ShardHandover

  const BYTES: Bytes := [0, 0, 0, 0, 0, 0, 0, 0, 0, 0, 0, 0, 0, 0, 0, 0, 0, 0, 0, 0, 0, 0, 0, 0, 0, 0, 0, 0, 0, 0, 0, 0]
  const NAME := Hex(BYTES)
  const SHARD := JobStore.Shard("o", 0, NAME, 32, "lease", "transfer", "A", "B")
  const UNTIL := 100
  const ARCHIVE := [Packed(NAME, BYTES), Index([Item(NAME, 32)], 114)]
  const SENT := JobStore.Request(JobStore.REPLICATE_CAS, "ers", "A", None, Some(SHARD), None, 135, 0, 2, Some(0))

  // --- The job store along the way ----------------------------------------------------------

  const S1 := JobStore.Enqueue(JobStore.EMPTY, SENT, "r", 0)
  const S2 := JobStore.Lease(S1, "A", 10, 0, {"r"})
  const S3 := JobStore.Enqueue(S2, InstallRequest(S1.jobs["r"], SHARD, 2, 0), "i", 0)
  const S4 := JobStore.Lease(S3, "B", 10, 0, {"i"})
  const S5 := JobStore.Complete(S4, "i", "B")

  lemma Sent()
    ensures JobStore.LeaseChoice(S1, "A", 1, 0, {"r"})
    ensures S2.jobs.Keys == {"r"} && JobStore.Held(S2, "r", "A")
    ensures S2.jobs["r"].kind == JobStore.REPLICATE_CAS && S2.jobs["r"].shard == Some(SHARD) && S2.jobs["r"].priority == 135
  {
    assert JobStore.LeasableIds(S1, "A", 0) == {"r"};
  }

  lemma Taken()
    ensures JobStore.LeaseChoice(S3, "B", 1, 0, {"i"})
    ensures JobStore.Held(S4, "i", "B") && S4.jobs["i"].kind == JobStore.INSTALL_CAS && S4.jobs["i"].shard == Some(SHARD)
    ensures "i" in S5.jobs && S5.jobs["i"].status == JobStore.Succeeded
  {
    Sent();
    assert JobStore.INSTALL_CAS[0] != JobStore.REPLICATE_CAS[0];
    assert JobStore.LeasableIds(S3, "B", 0) == {"i"};
  }

  // --- The worlds ------------------------------------------------------------------------------

  const T1 := ObjectRefs.Acquire(ObjectRefs.EMPTY, "lease", ObjectRefs.Lease(NAME, "h", UNTIL))
  const T2 := ObjectRefs.Ensure(T1, NAME, "erasure-shard", 32, Owner(SHARD))
  const EARLY := map[0 := Collection("B", {}, {}, 0)]
  const FULL := map["B" := map[NAME := BYTES]]
  const BARE: map<string, Objects> := map["B" := map[]]
  const ROWS := map[Slot("o", 0, "B") := NAME]

  /** The shard is ordered. */
  function Ordered(store: JobStore.State): World {
    World(store, T1, map["lease" := Order(SHARD, UNTIL)], map[], {}, map[], EARLY, map[])
  }

  /** B's attempt is in this phase. */
  function Doing(phase: Phase, store: JobStore.State, tables: ObjectRefs.State, releasing: set<string>,
                 disks: map<string, Objects>, cs: map<nat, Collection>, rows: map<Slot, string>): World {
    World(store, tables, map["lease" := Order(SHARD, UNTIL)], map[0 := Attempt("B", "i", SHARD, true, phase)], releasing, disks, cs, rows)
  }

  function Installed(cs: map<nat, Collection>): World {
    Doing(Stored, S4, T1, {}, FULL, cs, map[])
  }

  function Lost(cs: map<nat, Collection>): World {
    Doing(Gone, S5, T2, {"lease"}, BARE, cs, ROWS)
  }

  /** Some run of these events leads from an empty system to this world. */
  ghost predicate Reaches(events: seq<Event>, w: World) {
    exists worlds :: Run(worlds, events, Hex) && worlds[|events|] == w
  }

  lemma StepsJoin(before: seq<World>, done: seq<Event>, e: Event, n: World, sum: Bytes -> string)
    requires |before| == |done| + 1 && Step(before[|done|], e, n, sum)
    requires forall i :: 0 <= i < |done| ==> Step(before[i], done[i], before[i + 1], sum)
    ensures var worlds, es := before + [n], done + [e];
            forall i :: 0 <= i < |es| ==> Step(worlds[i], es[i], worlds[i + 1], sum)
  {
    var worlds, es := before + [n], done + [e];
    forall i | 0 <= i < |es| ensures Step(worlds[i], es[i], worlds[i + 1], sum) {
      if i < |done| {
        assert worlds[i] == before[i] && worlds[i + 1] == before[i + 1] && es[i] == done[i];
      }
    }
  }

  lemma RunOnward(before: seq<World>, done: seq<Event>, e: Event, n: World, sum: Bytes -> string)
    requires Run(before, done, sum) && Step(before[|done|], e, n, sum)
    ensures Run(before + [n], done + [e], sum)
  {
    StepsJoin(before, done, e, n, sum);
    assert (before + [n])[0] == before[0];
  }

  lemma Onward(done: seq<Event>, w: World, e: Event, n: World)
    requires Reaches(done, w) && Step(w, e, n, Hex)
    ensures Reaches(done + [e], n)
  {
    var before :| Run(before, done, Hex) && before[|done|] == w;
    RunOnward(before, done, e, n, Hex);
    assert (before + [n])[|done + [e]|] == n;
  }

  // --- Up to the extraction ---------------------------------------------------------------------

  const SURVEY := SurveyEv(0, "B", [], "", 0, true, 0)
  const ORDER := OrderEv(SHARD, "h", UNTIL)
  const SEND := StoreEv(JobStore.EnqueueEv(SENT, "r", 0))
  const LEASE_A := StoreEv(JobStore.LeaseEv("A", 1, 10, 0, {"r"}))
  const FINALIZE := FinalizeEv("r", "A", "i", 2, 0)
  const LEASE_B := StoreEv(JobStore.LeaseEv("B", 1, 10, 0, {"i"}))
  const BEGIN := BeginEv(0, "i", "B")
  const EXTRACT := ExtractEv(0, ARCHIVE, map[NAME := BYTES])
  const HEAD := [SURVEY, ORDER, SEND, LEASE_A, FINALIZE, LEASE_B, BEGIN, EXTRACT]

  /** A survey that meets no file and no protection keeps nothing. */
  lemma KeepsNothing(w: World, e: Event)
    requires e.SurveyEv? && e.roots == [] && (!e.consulted || ObjectRefs.Protected(w.tables, e.now) == {})
    ensures Kept(w, e, Hex) == {}
  {
  }

  lemma SurveyOnward(done: seq<Event>, w: World, e: Event)
    requires Reaches(done, w) && e.SurveyEv? && e.collection !in w.collections && e.roots == []
    requires !e.consulted || ObjectRefs.Protected(w.tables, e.now) == {}
    ensures Reaches(done + [e], w.(collections := w.collections[e.collection := Collection(e.agent, {}, w.issued.Keys, e.now)]))
  {
    SurveyStep(w, e);
    Onward(done, w, e, w.(collections := w.collections[e.collection := Collection(e.agent, {}, w.issued.Keys, e.now)]));
  }

  lemma SurveyStep(w: World, e: Event)
    requires e.SurveyEv? && e.collection !in w.collections && e.roots == []
    requires !e.consulted || ObjectRefs.Protected(w.tables, e.now) == {}
    ensures Step(w, e, w.(collections := w.collections[e.collection := Collection(e.agent, {}, w.issued.Keys, e.now)]), Hex)
  {
    KeepsNothing(w, e);
    SurveyNext(w, e, Hex);
  }

  lemma AtStart()
    ensures Reaches([], Start(map[]))
  {
    var worlds := [Start(map[])];
    assert worlds[0] == Start(map[]);
    assert Run(worlds, [], Hex);
  }

  lemma Surveyed()
    ensures Reaches(HEAD[..1], Start(map[]).(collections := EARLY))
  {
    AtStart();
    var w := Start(map[]);
    assert ObjectRefs.Protected(w.tables, 0) == {} && w.issued.Keys == {};
    SurveyOnward([], w, SURVEY);
    assert w.collections[0 := Collection("B", {}, {}, 0)] == EARLY;
    assert [] + [SURVEY] == HEAD[..1];
  }

  lemma OrderOnward(done: seq<Event>, w: World)
    requires Reaches(done, w) && w.issued == map[]
    ensures Reaches(done + [ORDER], w.(tables := ObjectRefs.Acquire(w.tables, "lease", ObjectRefs.Lease(NAME, "h", UNTIL)),
                                       issued := map["lease" := Order(SHARD, UNTIL)]))
  {
    HexIsValid(BYTES);
    Onward(done, w, ORDER, w.(tables := ObjectRefs.Acquire(w.tables, "lease", ObjectRefs.Lease(NAME, "h", UNTIL)),
                              issued := map["lease" := Order(SHARD, UNTIL)]));
  }

  lemma Shipped()
    ensures Reaches(HEAD[..2], Ordered(JobStore.EMPTY))
  {
    Surveyed();
    OrderOnward(HEAD[..1], Start(map[]).(collections := EARLY));
    assert HEAD[..2] == HEAD[..1] + [ORDER];
  }

  lemma Filed()
    ensures Reaches(HEAD[..3], Ordered(S1))
  {
    Shipped();
    assert HEAD[..3] == HEAD[..2] + [SEND];
    Onward(HEAD[..2], Ordered(JobStore.EMPTY), SEND, Ordered(S1));
  }

  lemma LeasedByA()
    ensures Reaches(HEAD[..4], Ordered(S2))
  {
    Filed();
    Sent();
    assert HEAD[..4] == HEAD[..3] + [LEASE_A];
    Onward(HEAD[..3], Ordered(S1), LEASE_A, Ordered(S2));
  }

  lemma Finalized()
    ensures Reaches(HEAD[..5], Ordered(S3))
  {
    LeasedByA();
    Sent();
    assert HEAD[..5] == HEAD[..4] + [FINALIZE];
    Onward(HEAD[..4], Ordered(S2), FINALIZE, Ordered(S3));
  }

  lemma LeasedByB()
    ensures Reaches(HEAD[..6], Ordered(S4))
  {
    Finalized();
    Taken();
    assert HEAD[..6] == HEAD[..5] + [LEASE_B];
    Onward(HEAD[..5], Ordered(S3), LEASE_B, Ordered(S4));
  }

  const BEGUN := Doing(Begun, S4, T1, {}, map[], EARLY, map[])

  lemma Started()
    ensures Reaches(HEAD[..7], BEGUN)
  {
    LeasedByB();
    Taken();
    assert HEAD[..7] == HEAD[..6] + [BEGIN];
    Onward(HEAD[..6], Ordered(S4), BEGIN, BEGUN);
  }

  lemma ArchiveInstalls()
    ensures Installable(ARCHIVE, map[], Hex) && Names(ARCHIVE, NAME) && Contents(ARCHIVE) == map[NAME := BYTES]
  {
    HexIsValid(BYTES);
    var first := ARCHIVE[..1];
    assert first == [Packed(NAME, BYTES)] && first[..0] == [] && Contents(first) == map[NAME := BYTES];
    assert True(first[0], Hex) && Acceptable(first[..0], Hex) && first[0].digest !in Contents(first[..0]);
    assert Acceptable(first, Hex);
    assert Acceptable(ARCHIVE, Hex);
    assert Manifest(ARCHIVE) == [Item(NAME, 32)] && Item(NAME, 32) in Manifest(ARCHIVE);
  }

  lemma ArchiveLeaves()
    ensures Leaves(ARCHIVE, map[], map[NAME := BYTES], Hex)
  {
    ArchiveInstalls();
    HexIsValid(BYTES);
    assert Contents(ARCHIVE) + map[] == map[NAME := BYTES];
  }

  /** An extraction on a bare disk. */
  lemma BareExtract(w: World, a: nat, entries: seq<Entry>, after: Objects)
    requires InPhase(w, a, Begun) && DiskOf(w, w.attempts[a].agent) == map[] && Leaves(entries, map[], after, Hex)
    requires Installable(entries, map[], Hex) && Names(entries, w.attempts[a].shard.digest)
    ensures Step(w, ExtractEv(a, entries, after), To(w, a, Stored).(disks := w.disks[w.attempts[a].agent := after]), Hex)
  {
  }

  lemma ExtractStep()
    ensures Step(BEGUN, EXTRACT, Installed(EARLY), Hex)
  {
    assert DiskOf(BEGUN, "B") == map[];
    ArchiveInstalls();
    ArchiveLeaves();
    BareExtract(BEGUN, 0, ARCHIVE, map[NAME := BYTES]);
    assert map[]["B" := map[NAME := BYTES]] == FULL;
  }

  lemma Extraction()
    ensures Reaches(HEAD, Installed(EARLY))
  {
    Started();
    ExtractStep();
    assert HEAD == HEAD[..7] + [EXTRACT];
    Onward(HEAD[..7], BEGUN, EXTRACT, Installed(EARLY));
  }

  // --- The end of the install, and the sweep --------------------------------------------------------

  lemma EnsureStep(store: JobStore.State, t: ObjectRefs.State, disks: map<string, Objects>, cs: map<nat, Collection>)
    requires JobStore.Held(store, "i", "B")
    ensures Step(Doing(Stored, store, t, {}, disks, cs, map[]), EnsureEv(0, true),
                 Doing(Referenced, store, ObjectRefs.Ensure(t, NAME, "erasure-shard", 32, Owner(SHARD)), {}, disks, cs, map[]), Hex)
  {
  }

  lemma Ensured(done: seq<Event>, cs: map<nat, Collection>)
    requires Reaches(done, Installed(cs))
    ensures Reaches(done + [EnsureEv(0, true)], Doing(Referenced, S4, T2, {}, FULL, cs, map[]))
  {
    Taken();
    EnsureStep(S4, T1, FULL, cs);
    Onward(done, Installed(cs), EnsureEv(0, true), Doing(Referenced, S4, T2, {}, FULL, cs, map[]));
  }

  lemma RecordStep(store: JobStore.State, t: ObjectRefs.State, disks: map<string, Objects>, cs: map<nat, Collection>)
    requires JobStore.Held(store, "i", "B")
    ensures Step(Doing(Referenced, store, t, {}, disks, cs, map[]), RecordEv(0, true), Doing(Recorded, store, t, {}, disks, cs, ROWS), Hex)
  {
  }

  lemma CompleteStep(store: JobStore.State, t: ObjectRefs.State, disks: map<string, Objects>, cs: map<nat, Collection>)
    requires JobStore.Held(store, "i", "B")
    ensures Step(Doing(Recorded, store, t, {}, disks, cs, ROWS), CompleteEv(0),
                 Doing(Gone, JobStore.Complete(store, "i", "B"), t, {"lease"}, disks, cs, ROWS), Hex)
  {
  }

  lemma SweepStep(store: JobStore.State, t: ObjectRefs.State, cs: map<nat, Collection>, c: nat)
    requires c in cs && cs[c].agent == "B" && NAME !in cs[c].keep
    ensures Step(Doing(Gone, store, t, {"lease"}, FULL, cs, ROWS), SweepEv(c, NAME), Doing(Gone, store, t, {"lease"}, BARE, cs, ROWS), Hex)
  {
    assert FULL["B"] - {NAME} == map[];
  }

  /** A row without its object, though the install succeeded. */
  ghost predicate Missing(w: World) {
    && Slot("o", 0, "B") in w.rows && w.rows[Slot("o", 0, "B")] !in DiskOf(w, "B")
    && "i" in w.store.jobs && w.store.jobs["i"].status == JobStore.Succeeded
  }

  function End(c: nat): seq<Event> {
    [EnsureEv(0, true), RecordEv(0, true), CompleteEv(0), SweepEv(c, NAME)]
  }

  lemma RecordedAndDone(done: seq<Event>, cs: map<nat, Collection>)
    requires Reaches(done, Installed(cs))
    ensures Reaches(done + [EnsureEv(0, true)] + [RecordEv(0, true)] + [CompleteEv(0)], Doing(Gone, S5, T2, {"lease"}, FULL, cs, ROWS))
  {
    Ensured(done, cs);
    Taken();
    var es := done + [EnsureEv(0, true)];
    RecordStep(S4, T2, FULL, cs);
    Onward(es, Doing(Referenced, S4, T2, {}, FULL, cs, map[]), RecordEv(0, true), Doing(Recorded, S4, T2, {}, FULL, cs, ROWS));
    CompleteStep(S4, T2, FULL, cs);
    Onward(es + [RecordEv(0, true)], Doing(Recorded, S4, T2, {}, FULL, cs, ROWS), CompleteEv(0), Doing(Gone, S5, T2, {"lease"}, FULL, cs, ROWS));
  }

  /** Whatever collections are under way, the install ends; and a collection on B that does not keep the
      shard removes it. */
  lemma LostAtEnd(done: seq<Event>, cs: map<nat, Collection>, c: nat)
    requires Reaches(done, Installed(cs))
    requires c in cs && cs[c].agent == "B" && NAME !in cs[c].keep
    ensures Reaches(done + End(c), Lost(cs)) && Missing(Lost(cs))
  {
    RecordedAndDone(done, cs);
    SweepOnward(done + [EnsureEv(0, true)] + [RecordEv(0, true)] + [CompleteEv(0)], cs, c);
    assert done + [EnsureEv(0, true)] + [RecordEv(0, true)] + [CompleteEv(0)] + [SweepEv(c, NAME)] == done + End(c);
    LostIsMissing(cs);
  }

  lemma SweepOnward(done: seq<Event>, cs: map<nat, Collection>, c: nat)
    requires Reaches(done, Doing(Gone, S5, T2, {"lease"}, FULL, cs, ROWS))
    requires c in cs && cs[c].agent == "B" && NAME !in cs[c].keep
    ensures Reaches(done + [SweepEv(c, NAME)], Lost(cs))
  {
    SweepStep(S5, T2, cs, c);
    Onward(done, Doing(Gone, S5, T2, {"lease"}, FULL, cs, ROWS), SweepEv(c, NAME), Lost(cs));
  }

  lemma LostIsMissing(cs: map<nat, Collection>)
    ensures Missing(Lost(cs))
  {
    Taken();
  }

  /** A collection that consulted the tables, but before the shard was ordered, loses it. */
  lemma EarlySurveyLoses() returns (events: seq<Event>, w: World)
    ensures Reaches(events, w) && Missing(w)
    ensures forall e :: e in events && e.SurveyEv? ==> e.consulted && e.now < UNTIL
  {
    Extraction();
    LostAtEnd(HEAD, EARLY, 0);
    events, w := HEAD + End(0), Lost(EARLY);
    HeadSurvey();
    OneSurvey(HEAD, End(0), SURVEY);
  }

  lemma HeadSurvey()
    ensures forall e :: e in HEAD && e.SurveyEv? ==> e == SURVEY
    ensures forall e :: e in End(0) ==> !e.SurveyEv?
  {
  }

  lemma OneSurvey(head: seq<Event>, end: seq<Event>, survey: Event)
    requires forall e :: e in head && e.SurveyEv? ==> e == survey
    requires forall e :: e in end ==> !e.SurveyEv?
    ensures forall e :: e in head + end && e.SurveyEv? ==> e == survey
  {
  }

  /** So does one that surveys between extraction and reference without the tables, or after the lease expired. */
  lemma LateSurveyLoses(consulted: bool, now: int) returns (w: World)
    requires !consulted || UNTIL <= now
    ensures Reaches(HEAD + [SurveyEv(1, "B", [], "", 0, consulted, now)] + End(1), w) && Missing(w)
  {
    Extraction();
    var e := SurveyEv(1, "B", [], "", 0, consulted, now);
    var cs := EARLY[1 := Collection("B", {}, {"lease"}, now)];
    NothingProtected(now);
    assert Installed(EARLY).issued.Keys == {"lease"};
    SurveyOnward(HEAD, Installed(EARLY), e);
    LostAtEnd(HEAD + [e], cs, 1);
    w := Lost(cs);
  }

  lemma NothingProtected(now: int)
    ensures UNTIL <= now ==> ObjectRefs.Protected(T1, now) == {}
  {
  }

  // --- A protect job --------------------------------------------------------------------------------

  const PROTECTING := JobStore.Request(JobStore.PROTECT_ERASURE, "B", "B", None, None, None, 90, 0, 2, Some(0))
  const P1 := JobStore.Enqueue(JobStore.EMPTY, PROTECTING, "p", 0)
  const P2 := JobStore.Lease(P1, "B", 10, 0, {"p"})

  lemma ProtectTaken()
    ensures JobStore.LeaseChoice(P1, "B", 1, 0, {"p"})
    ensures JobStore.Held(P2, "p", "B") && P2.jobs["p"].kind == JobStore.PROTECT_ERASURE
  {
    assert JobStore.LeasableIds(P1, "B", 0) == {"p"};
  }

  const FILE_PROTECT := StoreEv(JobStore.EnqueueEv(PROTECTING, "p", 0))
  const LEASE_PROTECT := StoreEv(JobStore.LeaseEv("B", 1, 10, 0, {"p"}))
  const INGEST := IngestEv(0, "p", "B", "o", 0, BYTES)
  const PROTECT := [FILE_PROTECT, LEASE_PROTECT, INGEST]

  /** B's protect job has come so far with one shard; a collection on B keeps nothing. */
  function Protecting(phase: Phase, t: ObjectRefs.State, disks: map<string, Objects>, cs: map<nat, Collection>, rows: map<Slot, string>): World {
    World(P2, t, map[], map[0 := Attempt("B", "p", Unleased("o", 0, NAME, 32, "B"), false, phase)], {}, disks, cs, rows)
  }

  lemma ProtectFiled()
    ensures Reaches(PROTECT[..2], Start(map[]).(store := P2))
  {
    AtStart();
    ProtectTaken();
    assert [] + [FILE_PROTECT] == PROTECT[..1] && PROTECT[..1] + [LEASE_PROTECT] == PROTECT[..2];
    Onward([], Start(map[]), FILE_PROTECT, Start(map[]).(store := P1));
    Onward(PROTECT[..1], Start(map[]).(store := P1), LEASE_PROTECT, Start(map[]).(store := P2));
  }

  lemma Ingested()
    ensures Reaches(PROTECT, Protecting(Stored, ObjectRefs.EMPTY, FULL, map[], map[]))
  {
    ProtectFiled();
    ProtectTaken();
    HexIsValid(BYTES);
    var w := Start(map[]).(store := P2);
    assert DiskOf(w, "B") == map[];
    assert PROTECT == PROTECT[..2] + [INGEST];
    Onward(PROTECT[..2], w, INGEST, Protecting(Stored, ObjectRefs.EMPTY, FULL, map[], map[]));
  }

  const R1 := ObjectRefs.Ensure(ObjectRefs.EMPTY, NAME, "erasure-shard", 32, OwnerText("o", 0))

  lemma ProtectedSteps(done: seq<Event>, t: ObjectRefs.State, cs: map<nat, Collection>)
    requires Reaches(done, Protecting(Stored, t, FULL, cs, map[]))
    ensures var u := ObjectRefs.Ensure(t, NAME, "erasure-shard", 32, OwnerText("o", 0));
            Reaches(done + [EnsureEv(0, true)] + [RecordEv(0, true)], Protecting(Recorded, u, FULL, cs, ROWS))
  {
    ProtectTaken();
    var u := ObjectRefs.Ensure(t, NAME, "erasure-shard", 32, OwnerText("o", 0));
    Onward(done, Protecting(Stored, t, FULL, cs, map[]), EnsureEv(0, true), Protecting(Referenced, u, FULL, cs, map[]));
    RecordProtected(done + [EnsureEv(0, true)], u, cs);
  }

  lemma RecordProtected(done: seq<Event>, u: ObjectRefs.State, cs: map<nat, Collection>)
    requires Reaches(done, Protecting(Referenced, u, FULL, cs, map[]))
    ensures Reaches(done + [RecordEv(0, true)], Protecting(Recorded, u, FULL, cs, ROWS))
  {
    ProtectTaken();
    Onward(done, Protecting(Referenced, u, FULL, cs, map[]), RecordEv(0, true), Protecting(Recorded, u, FULL, cs, ROWS));
  }

  lemma SweptOnward(done: seq<Event>, u: ObjectRefs.State, cs: map<nat, Collection>, c: nat)
    requires Reaches(done, Protecting(Recorded, u, FULL, cs, ROWS))
    requires c in cs && cs[c].agent == "B" && NAME !in cs[c].keep
    ensures Reaches(done + [SweepEv(c, NAME)], Protecting(Recorded, u, BARE, cs, ROWS))
  {
    assert FULL["B"] - {NAME} == map[];
    Onward(done, Protecting(Recorded, u, FULL, cs, ROWS), SweepEv(c, NAME), Protecting(Recorded, u, BARE, cs, ROWS));
  }

  lemma SurveyedProtect(now: int)
    ensures Reaches(PROTECT + [SurveyEv(0, "B", [], "", 0, true, now)],
                    Protecting(Stored, ObjectRefs.EMPTY, FULL, map[0 := Collection("B", {}, {}, now)], map[]))
  {
    Ingested();
    var e := SurveyEv(0, "B", [], "", 0, true, now);
    var before := Protecting(Stored, ObjectRefs.EMPTY, FULL, map[], map[]);
    assert ObjectRefs.Protected(ObjectRefs.EMPTY, now) == {} && before.issued.Keys == {};
    SurveyOnward(PROTECT, before, e);
    assert map[][0 := Collection("B", {}, {}, now)] == map[0 := Collection("B", {}, {}, now)];
  }

  /** A protect job holds no lease on what it stores: a collection that consults the tables, at whatever time,
      between the storing and the reference costs the recorded shard. */
  lemma UnleasedLoses(now: int) returns (w: World)
    ensures Reaches(PROTECT + [SurveyEv(0, "B", [], "", 0, true, now)] + [EnsureEv(0, true)] + [RecordEv(0, true)] + [SweepEv(0, NAME)], w)
    ensures Slot("o", 0, "B") in w.rows && w.rows[Slot("o", 0, "B")] !in DiskOf(w, "B")
  {
    var cs := map[0 := Collection("B", {}, {}, now)];
    var done := PROTECT + [SurveyEv(0, "B", [], "", 0, true, now)];
    SurveyedProtect(now);
    ProtectedSteps(done, ObjectRefs.EMPTY, cs);
    SweptOnward(done + [EnsureEv(0, true)] + [RecordEv(0, true)], R1, cs, 0);
    w := Protecting(Recorded, R1, BARE, cs, ROWS);
  }
}
