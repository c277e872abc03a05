/** Installing a synchronisation archive into a content-addressed store
    (internal/cassync/cassync.go, Extract). */
module CasInstall {
  import opened Prelude
  import opened Inventory
  import opened CasManifest
  import opened CasSync

  /** The manifest that counts is the last one in the archive. */
  function Manifest(entries: seq<Entry>): seq<Item> {
    if entries == [] then []
    else
      var last := entries[|entries| - 1];
      if last.Index? then last.items else Manifest(entries[..|entries| - 1])
  }

  predicate True(e: Entry, sum: Bytes -> string)
    requires e.Packed?
  {
    ValidDigest(e.digest) && sum(e.content) == e.digest
  }

  /** Nothing strange, nothing corrupt, nothing twice, and no manifest that goes on past the limit. */
  predicate Acceptable(entries: seq<Entry>, sum: Bytes -> string) {
    entries == [] ||
    (var earlier, e := entries[..|entries| - 1], entries[|entries| - 1];
     && Acceptable(earlier, sum) && !e.Stray?
     && (e.Packed? ==> True(e, sum) && e.digest !in Contents(earlier))
     && (e.Index? ==> e.length <= MANIFEST_LIMIT))
  }

  /** A listed object is in the store with the listed bytes. */
  predicate Listed(i: Item, stage: Objects, store: Objects, sum: Bytes -> string) {
    && i.digest in store && sum(store[i.digest]) == i.digest
    && (i.digest in stage ==> |stage[i.digest]| == i.bytes)
  }

  /** Stored objects that the archive also carries are intact. */
  predicate Consistent(stage: Objects, store: Objects, sum: Bytes -> string) {
    forall d :: d in stage && d in store ==> sum(store[d]) == d
  }

  /** Exactly the archives that install into `store` without an error. */
  ghost predicate Installable(entries: seq<Entry>, store: Objects, sum: Bytes -> string) {
    var stage := Contents(entries);
    && Acceptable(entries, sum) && Consistent(stage, store, sum)
    && forall i :: i in Manifest(entries) ==> Listed(i, stage, stage + store, sum)
  }

  lemma {:induction false} UnacceptablePrefix(entries: seq<Entry>, n: nat, sum: Bytes -> string)
    requires n <= |entries| && !Acceptable(entries[..n], sum)
    ensures !Acceptable(entries, sum)
    decreases |entries|
  {
    if n == |entries| {
      assert entries[..n] == entries;
    } else {
      assert entries[..|entries| - 1][..n] == entries[..n];
      UnacceptablePrefix(entries[..|entries| - 1], n, sum);
    }
  }

  /** What is staged from an acceptable archive carries its own digest as name. */
  lemma {:induction false} StagedTrue(entries: seq<Entry>, sum: Bytes -> string)
    requires Acceptable(entries, sum)
    ensures forall d :: d in Contents(entries) ==> ValidDigest(d) && sum(Contents(entries)[d]) == d
  {
    if entries != [] {
      StagedTrue(entries[..|entries| - 1], sum);
    }
  }

  method StageEntries(entries: seq<Entry>, sum: Bytes -> string) returns (stage: Objects, items: seq<Item>, ok: bool)
    ensures ok <==> Acceptable(entries, sum)
    ensures ok ==> stage == Contents(entries) && items == Manifest(entries)
  {
    stage, items, ok := map[], [], true;
    for n := 0 to |entries|
      invariant Acceptable(entries[..n], sum)
      invariant stage == Contents(entries[..n]) && items == Manifest(entries[..n])
    {
      var e := entries[n];
      assert entries[..n + 1][..n] == entries[..n] && entries[..n + 1][n] == e;
      if e.Index? {
        if e.length > MANIFEST_LIMIT {
          ok := false;
          UnacceptablePrefix(entries, n + 1, sum);
          return;
        }
        items := e.items;
      } else if e.Stray? || !ValidDigest(e.digest) || e.digest in stage || sum(e.content) != e.digest {
        ok := false;
        UnacceptablePrefix(entries, n + 1, sum);
        return;
      } else {
        stage := stage[e.digest := e.content];
      }
    }
    assert entries[..|entries|] == entries;
  }

  /** Every object kept, every new one under its true digest. */
  ghost predicate Grown(before: Objects, now: Objects, sum: Bytes -> string) {
    && (forall d :: d in before ==> d in now && now[d] == before[d])
    && forall d :: d in now && d !in before ==> ValidDigest(d) && sum(now[d]) == d
  }

  /** Whatever is new was staged. */
  ghost predicate Taken(stage: Objects, before: Objects, now: Objects) {
    forall d :: d in now && d !in before ==> d in stage && now[d] == stage[d]
  }

  class Store {
    var objects: Objects

    constructor (initial: Objects)
      ensures objects == initial
    {
      objects := initial;
    }

    /** Moves staged objects into place in no particular order; an object already there stays. */
    method MoveIn(stage: Objects, sum: Bytes -> string) returns (ok: bool)
      requires forall d :: d in stage ==> ValidDigest(d) && sum(stage[d]) == d
      modifies this
      ensures ok <==> Consistent(stage, old(objects), sum)
      ensures ok ==> objects == stage + old(objects)
      ensures Grown(old(objects), objects, sum) && Taken(stage, old(objects), objects)
    {
      ok := true;
      var todo := stage.Keys;
      while todo != {}
        invariant todo <= stage.Keys
        invariant Grown(old(objects), objects, sum) && Taken(stage, old(objects), objects)
        invariant objects.Keys == old(objects).Keys + (stage.Keys - todo)
        invariant forall d :: d in stage && d !in todo && d !in old(objects) ==> d in objects && objects[d] == stage[d]
        invariant forall d :: d in stage && d !in todo && d in old(objects) ==> sum(old(objects)[d]) == d
      {
        var d :| d in todo;
        if d in objects {
          if sum(objects[d]) != d {
            return false;
          }
        } else {
          objects := objects[d := stage[d]];
        }
        todo := todo - {d};
      }
      assert objects == stage + old(objects);
    }

    method Extract(entries: seq<Entry>, sum: Bytes -> string) returns (ok: bool)
      modifies this
      ensures ok <==> Installable(entries, old(objects), sum)
      ensures ok ==> objects == Contents(entries) + old(objects)
      ensures Grown(old(objects), objects, sum) && Taken(Contents(entries), old(objects), objects)
      ensures !Acceptable(entries, sum) ==> objects == old(objects)
    {
      var stage: Objects, items;
      stage, items, ok := StageEntries(entries, sum);
      if !ok {
        return;
      }
      StagedTrue(entries, sum);
      ok := MoveIn(stage, sum);
      if !ok {
        return;
      }
      ok := CheckManifest(items, stage, objects, sum);
    }
  }

  method CheckManifest(items: seq<Item>, stage: Objects, store: Objects, sum: Bytes -> string) returns (ok: bool)
    ensures ok <==> forall i :: i in items ==> Listed(i, stage, store, sum)
  {
    for n := 0 to |items|
      invariant forall m :: 0 <= m < n ==> Listed(items[m], stage, store, sum)
    {
      var i := items[n];
      if (i.digest in stage && |stage[i.digest]| != i.bytes) || i.digest !in store || sum(store[i.digest]) != i.digest {
        assert i in items;
        return false;
      }
    }
    return true;
  }

  // --- From one store to another ---------------------------------------------------------

  lemma PackedStep(entries: seq<Entry>, n: nat)
    requires n < |entries| && entries[n].Packed?
    ensures entries[..n + 1][..n] == entries[..n] && entries[..n + 1][n] == entries[n]
    ensures Contents(entries[..n + 1]) == Contents(entries[..n])[entries[n].digest := entries[n].content]
  {
    assert entries[..n + 1][..n] == entries[..n];
  }

  /** `stage` holds the first `n` entries and nothing else. */
  ghost predicate Tracks(entries: seq<Entry>, n: nat, stage: Objects)
    requires n <= |entries| && forall i :: 0 <= i < n ==> entries[i].Packed?
  {
    && (forall d :: d in stage ==> exists i :: 0 <= i < n && entries[i].digest == d)
    && forall i :: 0 <= i < n ==> entries[i].digest in stage && stage[entries[i].digest] == entries[i].content
  }

  lemma TracksStep(entries: seq<Entry>, n: nat, stage: Objects)
    requires n < |entries| && forall i :: 0 <= i <= n ==> entries[i].Packed?
    requires forall i, j :: 0 <= i < j <= n ==> entries[i].digest != entries[j].digest
    requires Tracks(entries, n, stage)
    ensures Tracks(entries, n + 1, stage[entries[n].digest := entries[n].content])
    ensures entries[n].digest !in stage
  {
  }

  /** The contents of a faithful archive up to its manifest are the objects one by one. */
  lemma {:induction false} PackedContents(entries: seq<Entry>, n: nat, sum: Bytes -> string)
    requires Faithful(entries, sum) && n < |entries|
    ensures Tracks(entries, n, Contents(entries[..n]))
  {
    if n != 0 {
      PackedContents(entries, n - 1, sum);
      PackedStep(entries, n - 1);
      TracksStep(entries, n - 1, Contents(entries[..n - 1]));
    }
  }

  lemma {:induction false} PackedAcceptable(entries: seq<Entry>, n: nat, sum: Bytes -> string)
    requires Faithful(entries, sum) && n < |entries|
    ensures Acceptable(entries[..n], sum)
  {
    if n != 0 {
      PackedAcceptable(entries, n - 1, sum);
      PackedContents(entries, n - 1, sum);
      PackedStep(entries, n - 1);
      assert entries[n - 1].digest !in Contents(entries[..n - 1]);
    }
  }

  lemma FaithfulContents(entries: seq<Entry>, sum: Bytes -> string)
    requires Faithful(entries, sum)
    ensures forall d :: d in Contents(entries) ==> ValidDigest(d) && sum(Contents(entries)[d]) == d
    ensures Manifest(entries) == entries[|entries| - 1].items
    ensures entries[|entries| - 1].length == ManifestSize(Contents(entries))
  {
    var n := |entries| - 1;
    PackedAcceptable(entries, n, sum);
    StagedTrue(entries[..n], sum);
    assert Contents(entries) == Contents(entries[..n]);
    ManifestLength(entries[n].items, Contents(entries));
  }

  /** What a source packs installs exactly where its manifest is short enough to be read and the copies that are
      there already are intact; which of the two fails is decided before or after the first object is moved. */
  lemma FaithfulInstallsIff(entries: seq<Entry>, store: Objects, sum: Bytes -> string)
    requires Faithful(entries, sum)
    ensures Acceptable(entries, sum) <==> Fits(Contents(entries))
    ensures Installable(entries, store, sum) <==> Fits(Contents(entries)) && Consistent(Contents(entries), store, sum)
  {
    PackedAcceptable(entries, |entries| - 1, sum);
    FaithfulContents(entries, sum);
    var stage := Contents(entries);
    if Consistent(stage, store, sum) {
      forall i | i in Manifest(entries) ensures Listed(i, stage, stage + store, sum) {
        assert i.digest in stage;
      }
    }
  }

  /** Sending the same archive again changes nothing. */
  lemma InstallingTwice(entries: seq<Entry>, store: Objects, sum: Bytes -> string)
    requires Installable(entries, store, sum)
    ensures Installable(entries, Contents(entries) + store, sum)
    ensures Contents(entries) + (Contents(entries) + store) == Contents(entries) + store
  {
    StagedTrue(entries, sum);
    var stage := Contents(entries);
    assert stage + (stage + store) == stage + store;
  }
}
