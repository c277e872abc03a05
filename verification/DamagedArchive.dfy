/** One damaged object in a store, and a transfer that moves nothing because of it (internal/cassync/cassync.go). */
module DamagedArchive {
  import opened Prelude
  import opened Inventory
  import opened CasManifest
  import opened CasSync
  import opened CasInstall
  import opened CasReconcile
  import opened CasTransfer
  import opened CasConvergence
  import opened CrowdedArchive

  /** Object 0 is intact; under the name of object 1 lie the bytes of object 0. */
  ghost function Spoilt(k: Stock): Objects {
    map[Name(0, k) := k.number(0), Name(1, k) := k.number(0)]
  }

  lemma NamesDiffer(k: Stock)
    requires Lawful(k)
    ensures Name(0, k) != Name(1, k) && Intact(Spoilt(k), Name(0, k), k.sum) && !Intact(Spoilt(k), Name(1, k), k.sum)
  {
    NameIsValid(0, k);
    NameIsValid(1, k);
    if k.number(0) == k.number(1) {
      assert false;
    }
  }

  lemma SpoiltIsSent(w: World, k: Stock, hash: Hash)
    requires Lawful(k) && S in w && w[S] == Spoilt(k)
    ensures Name(0, k) in Sent(w, Sending(S, T), hash) && !Sane(Sent(w, Sending(S, T), hash), k.sum)
  {
    NamesDiffer(k);
    assert Lower("00") == "00" && "00" in ["00"];
    forall i: nat | i < 2 ensures Name(i, k) in Sent(w, Sending(S, T), hash) {
      NameIsValid(i, k);
      BothWantAll(Name(i, k), hash, T);
      SentAsks(w, Sending(S, T), Name(i, k), hash);
    }
    SentAsks(w, Sending(S, T), Name(1, k), hash);
  }

  /** The first object is intact and belongs on `t`; the damaged one beside it keeps it from being sent. */
  lemma DamagedSourceSendsNothing(worlds: seq<World>, hash: Hash, k: Stock)
    requires Lawful(k) && Runs(worlds, [Sending(S, T)], hash, k.sum) && worlds[0] == map[S := Spoilt(k), T := map[]]
    ensures worlds[1] == worlds[0] && Owed(worlds[0], S, Name(0, k), T, {S, T}, 2, hash, k.sum)
    ensures !Settled(worlds[0], worlds[1], {S, T}, {S, T}, 2, hash, k.sum)
  {
    var w, o := worlds[0], Sending(S, T);
    AgentsDiffer();
    NamesDiffer(k);
    SpoiltIsSent(w, k, hash);
    assert [o][0] == o && Transfer(w, o, worlds[1], hash, k.sum);
    BothWantAll(Name(0, k), hash, T);
  }

  /** A target with a damaged copy of one object. */
  ghost function Struck(k: Stock): World {
    map[S := Pile(2, k), T := map[Name(1, k) := k.number(0)]]
  }

  lemma NothingWorks(k: Stock, hash: Hash)
    requires Lawful(k)
    ensures !Works(Struck(k), Sending(S, T), hash, k.sum) && Name(0, k) in Pile(2, k) && Name(0, k) !in Struck(k)[T]
  {
    AgentsDiffer();
    NamesDiffer(k);
    PileHolds(2, 0, k);
    PileHolds(2, 1, k);
    SendsAll(Struck(k), S, T, 2, hash, k);
  }

  /** Both objects are intact on `s`; there is a run that leaves `t` with its damaged copy alone. */
  lemma DamagedTargetTakesNothing(hash: Hash, k: Stock) returns (worlds: seq<World>)
    requires Lawful(k)
    ensures Runs(worlds, [Sending(S, T)], hash, k.sum) && worlds[0] == Struck(k) && worlds[1] == Struck(k)
    ensures Owed(Struck(k), S, Name(0, k), T, {S, T}, 2, hash, k.sum) && Name(0, k) !in worlds[1][T]
  {
    var w, orders := Struck(k), [Sending(S, T)];
    AgentsDiffer();
    NothingWorks(k, hash);
    PileIsSane(2, k);
    BothWantAll(Name(0, k), hash, T);
    worlds := Trace(w, orders, hash, k.sum);
    TraceRuns(w, orders, hash, k.sum);
    assert orders[1..] == [] && Quiet(w, orders[0], hash, k.sum) == w;
  }
}
