/** Garbage collection of the content-addressed store (internal/cas/cas.go). */
module CasStore {
  import opened Prelude
  import opened Finite
  import ObjectRefs

  const DIGEST_LENGTH := 64

  /** The objects of a store, by file name. */
  type Objects = map<string, Bytes>

  /** A file below a backup root. */
  datatype LogicalFile = LogicalFile(path: string, regular: bool, content: Bytes)

  /** A backup root: its absolute path and, when it exists, the files a walk visits. */
  datatype Root = Root(given: string, absolute: string, exists_: bool, files: seq<LogicalFile>)

  datatype GcResult = GcResult(scanned: nat, reachable: nat, removed: nat, removedBytes: nat)

  predicate EndsWith(s: string, suffix: string) {
    |suffix| <= |s| && s[|s| - |suffix|..] == suffix
  }

  predicate Mentions(s: string, part: string)
    requires part != ""
  {
    |part| <= |s| && (part <= s || Mentions(s[1..], part))
  }

  /** Sidecars and indexes are not payload. */
  predicate SkipLogical(path: string) {
    var p := Lower(path);
    EndsWith(p, ".json") || EndsWith(p, ".sig") || EndsWith(p, ".sha256") || EndsWith(p, ".sig.json")
    || Mentions(p, "/manifests/") || Mentions(p, "/state/")
  }

  predicate Payload(f: LogicalFile, minSize: int) {
    f.regular && |f.content| >= minSize && !SkipLogical(f.path)
  }

  /** Roots that are blank, absent or inside the store itself are not walked. */
  predicate Walked(r: Root, casRoot: string) {
    TrimSpace(r.given) != "" && r.absolute != casRoot && !((casRoot + "/") <= r.absolute) && r.exists_
  }

  /** The digests a collection must keep. */
  ghost function Reachable(roots: seq<Root>, casRoot: string, minSize: int, protected: set<string>, hash: Bytes -> string): set<string> {
    (set r, f | r in roots && Walked(r, casRoot) && f in r.files && Payload(f, minSize) :: hash(f.content))
    + set d | d in protected && |d| == DIGEST_LENGTH :: Lower(d)
  }

  ghost function Garbage(objects: Objects, keep: set<string>): set<string> {
    objects.Keys - keep
  }

  /** Total size of some objects. */
  ghost function Size(objects: Objects, names: seq<string>, keep: set<string>): nat
    requires forall n :: n in names ==> n in objects
  {
    if names == [] then 0
    else Size(objects, names[..|names| - 1], keep)
         + if names[|names| - 1] in keep then 0 else |objects[names[|names| - 1]]|
  }

  // --- Reachability -----------------------------------------------------------------

  ghost function FileDigests(files: seq<LogicalFile>, minSize: int, hash: Bytes -> string): set<string> {
    set f | f in files && Payload(f, minSize) :: hash(f.content)
  }

  /** Payload files, counted each time they are met. */
  function PayloadCount(files: seq<LogicalFile>, minSize: int): nat {
    if files == [] then 0
    else PayloadCount(files[..|files| - 1], minSize) + if Payload(files[|files| - 1], minSize) then 1 else 0
  }

  function ScanCount(roots: seq<Root>, casRoot: string, minSize: int): nat {
    if roots == [] then 0
    else
      var last := roots[|roots| - 1];
      ScanCount(roots[..|roots| - 1], casRoot, minSize) + if Walked(last, casRoot) then PayloadCount(last.files, minSize) else 0
  }

  lemma FileStep(files: seq<LogicalFile>, i: nat, minSize: int, hash: Bytes -> string)
    requires i < |files|
    ensures FileDigests(files[..i + 1], minSize, hash)
         == FileDigests(files[..i], minSize, hash) + if Payload(files[i], minSize) then {hash(files[i].content)} else {}
    ensures PayloadCount(files[..i + 1], minSize) == PayloadCount(files[..i], minSize) + if Payload(files[i], minSize) then 1 else 0
  {
    assert files[..i + 1][..i] == files[..i];
    assert forall f :: f in files[..i + 1] <==> f in files[..i] || f == files[i];
  }

  method ScanFiles(files: seq<LogicalFile>, minSize: int, hash: Bytes -> string) returns (found: set<string>, scanned: nat)
    ensures found == FileDigests(files, minSize, hash) && scanned == PayloadCount(files, minSize)
  {
    found, scanned := {}, 0;
    for i := 0 to |files|
      invariant found == FileDigests(files[..i], minSize, hash) && scanned == PayloadCount(files[..i], minSize)
    {
      FileStep(files, i, minSize, hash);
      if Payload(files[i], minSize) {
        found, scanned := found + {hash(files[i].content)}, scanned + 1;
      }
    }
    assert files[..|files|] == files;
  }

  ghost function RootDigests(roots: seq<Root>, casRoot: string, minSize: int, hash: Bytes -> string): set<string> {
    set r, f | r in roots && Walked(r, casRoot) && f in r.files && Payload(f, minSize) :: hash(f.content)
  }

  lemma RootStep(roots: seq<Root>, r: Root, casRoot: string, minSize: int, hash: Bytes -> string)
    ensures RootDigests(roots + [r], casRoot, minSize, hash)
         == RootDigests(roots, casRoot, minSize, hash) + if Walked(r, casRoot) then FileDigests(r.files, minSize, hash) else {}
  {
    assert r in roots + [r];
    assert forall x :: x in roots + [r] <==> x in roots || x == r;
  }

  lemma ScanStep(roots: seq<Root>, r: Root, casRoot: string, minSize: int)
    ensures ScanCount(roots + [r], casRoot, minSize)
         == ScanCount(roots, casRoot, minSize) + if Walked(r, casRoot) then PayloadCount(r.files, minSize) else 0
  {
    assert (roots + [r])[..|roots|] == roots;
  }

  method ScanRoots(roots: seq<Root>, casRoot: string, minSize: int, hash: Bytes -> string) returns (keep: set<string>, scanned: nat)
    ensures keep == RootDigests(roots, casRoot, minSize, hash) && scanned == ScanCount(roots, casRoot, minSize)
  {
    keep, scanned := {}, 0;
    for i := 0 to |roots|
      invariant keep == RootDigests(roots[..i], casRoot, minSize, hash)
      invariant scanned == ScanCount(roots[..i], casRoot, minSize)
    {
      assert roots[..i + 1] == roots[..i] + [roots[i]];
      RootStep(roots[..i], roots[i], casRoot, minSize, hash);
      ScanStep(roots[..i], roots[i], casRoot, minSize);
      var found, n := ScanRoot(roots[i], casRoot, minSize, hash);
      keep, scanned := keep + found, scanned + n;
    }
    assert roots[..|roots|] == roots;
  }

  method ScanRoot(r: Root, casRoot: string, minSize: int, hash: Bytes -> string) returns (found: set<string>, scanned: nat)
    ensures found == if Walked(r, casRoot) then FileDigests(r.files, minSize, hash) else {}
    ensures scanned == if Walked(r, casRoot) then PayloadCount(r.files, minSize) else 0
  {
    found, scanned := {}, 0;
    if Walked(r, casRoot) {
      found, scanned := ScanFiles(r.files, minSize, hash);
    }
  }

  method FindReachable(roots: seq<Root>, casRoot: string, minSize: int, protected: set<string>, hash: Bytes -> string)
    returns (keep: set<string>, scanned: nat)
    ensures keep == Reachable(roots, casRoot, minSize, protected, hash) && scanned == ScanCount(roots, casRoot, minSize)
  {
    keep, scanned := ScanRoots(roots, casRoot, minSize, hash);
    ghost var fromRoots := keep;
    var todo := protected;
    while todo != {}
      invariant todo <= protected
      invariant keep == fromRoots + set d | d in protected - todo && |d| == DIGEST_LENGTH :: Lower(d)
    {
      var d :| d in todo;
      if |d| == DIGEST_LENGTH {
        keep := keep + {Lower(d)};
      }
      todo := todo - {d};
    }
  }

  // --- Deletion ----------------------------------------------------------------------

  class Store {
    var objects: Objects

    constructor (content: Objects)
      ensures objects == content
    {
      objects := content;
    }

    /** Removes what is neither reachable nor protected. `walk` lists the object files in the
        order the directory walk meets them; a malformed name ends the walk with an error. */
    method GCProtected(roots: seq<Root>, casRoot: string, minSize: int, dryRun: bool, protected: set<string>,
                       hash: Bytes -> string, walk: seq<string>)
      returns (out: GcResult, ok: bool)
      requires Distinct(walk) && forall n :: n in walk <==> n in objects
      modifies this
      ensures ok <==> forall n :: n in walk ==> |n| == DIGEST_LENGTH
      ensures dryRun ==> objects == old(objects)
      ensures var keep := Reachable(roots, casRoot, minSize, protected, hash);
              && (forall n :: n in old(objects) && n in keep ==> n in objects)
              && (forall n :: n in objects ==> n in old(objects) && objects[n] == old(objects)[n])
              && (ok && !dryRun ==> objects.Keys == old(objects).Keys * keep)
              && out.scanned == ScanCount(roots, casRoot, minSize)
              && (ok ==> out.reachable == |keep| && out.removed == |Garbage(old(objects), keep)|
                         && out.removedBytes == Size(old(objects), walk, keep))
    {
      var keep, scanned := FindReachable(roots, casRoot, minSize, protected, hash);
      var removed, bytes;
      ghost var before, done := objects, 0;
      removed, bytes, ok, done := Sweep(keep, dryRun, walk);
      SweptFacts(before, objects, keep, dryRun, walk, done);
      out := GcResult(scanned, |keep|, removed, bytes);
    }

    /** Deletes one object unless it is kept. */
    method Visit(name: string, keep: set<string>, dryRun: bool) returns (removed: nat, bytes: nat)
      requires name in objects
      modifies this
      ensures objects == if dryRun || name in keep then old(objects) else old(objects) - {name}
      ensures removed == if name in keep then 0 else 1
      ensures bytes == if name in keep then 0 else |old(objects)[name]|
    {
      removed, bytes := 0, 0;
      if name !in keep {
        removed, bytes := 1, |objects[name]|;
        if !dryRun {
          objects := objects - {name};
        }
      }
    }

    method Sweep(keep: set<string>, dryRun: bool, walk: seq<string>)
      returns (removed: nat, bytes: nat, ok: bool, ghost done: nat)
      requires Distinct(walk) && forall n :: n in walk <==> n in objects
      modifies this
      ensures ok <==> forall n :: n in walk ==> |n| == DIGEST_LENGTH
      ensures done <= |walk| && (ok ==> done == |walk|)
      ensures objects == AfterSweep(old(objects), keep, dryRun, walk[..done])
      ensures removed == |Collected(walk[..done], keep)| && bytes == Size(old(objects), walk[..done], keep)
    {
      removed, bytes, ok, done := 0, 0, true, 0;
      var i := 0;
      while i < |walk|
        invariant done == i <= |walk|
        invariant forall n :: n in walk[..i] ==> |n| == DIGEST_LENGTH
        invariant removed == |Collected(walk[..i], keep)| && bytes == Size(old(objects), walk[..i], keep)
        invariant objects == AfterSweep(old(objects), keep, dryRun, walk[..i])
      {
        SweepStep(old(objects), keep, dryRun, walk, i);
        if |walk[i]| != DIGEST_LENGTH {
          ok := false;
          return;
        }
        var r, n := Visit(walk[i], keep, dryRun);
        removed, bytes, i, done := removed + r, bytes + n, i + 1, i + 1;
      }
      assert walk[..|walk|] == walk;
    }
  }

  ghost function AfterSweep(before: Objects, keep: set<string>, dryRun: bool, visited: seq<string>): Objects {
    if dryRun then before else before - Collected(visited, keep)
  }

  /** What visiting one more object contributes. */
  lemma SweepStep(before: Objects, keep: set<string>, dryRun: bool, walk: seq<string>, i: nat)
    requires Distinct(walk) && i < |walk| && forall n :: n in walk <==> n in before
    ensures forall n :: n in walk[..i + 1] <==> n in walk[..i] || n == walk[i]
    ensures var now := AfterSweep(before, keep, dryRun, walk[..i]);
            && walk[i] in now && now[walk[i]] == before[walk[i]]
            && AfterSweep(before, keep, dryRun, walk[..i + 1]) == if dryRun || walk[i] in keep then now else now - {walk[i]}
    ensures |Collected(walk[..i + 1], keep)| == |Collected(walk[..i], keep)| + if walk[i] in keep then 0 else 1
    ensures Size(before, walk[..i + 1], keep) == Size(before, walk[..i], keep) + if walk[i] in keep then 0 else |before[walk[i]]|
  {
    CollectedStep(walk, i, keep);
    assert walk[i] in walk;
  }

  lemma SweptFacts(before: Objects, after: Objects, keep: set<string>, dryRun: bool, walk: seq<string>, done: nat)
    requires done <= |walk| && (forall n :: n in walk <==> n in before)
    requires after == AfterSweep(before, keep, dryRun, walk[..done])
    ensures forall n :: n in before && n in keep ==> n in after
    ensures forall n :: n in after ==> n in before && after[n] == before[n]
    ensures done == |walk| ==> walk[..done] == walk && Collected(walk, keep) == Garbage(before, keep)
    ensures done == |walk| && !dryRun ==> after.Keys == before.Keys * keep
  {
    if done == |walk| {
      assert walk[..done] == walk;
      assert Collected(walk, keep) == Garbage(before, keep);
    }
  }

  ghost function Collected(names: seq<string>, keep: set<string>): set<string> {
    set n | n in names && n !in keep
  }

  lemma CollectedStep(walk: seq<string>, i: nat, keep: set<string>)
    requires Distinct(walk) && i < |walk|
    ensures walk[..i + 1][..i] == walk[..i]
    ensures forall n :: n in walk[..i + 1] <==> n in walk[..i] || n == walk[i]
    ensures walk[i] !in Collected(walk[..i], keep)
    ensures Collected(walk[..i + 1], keep) == Collected(walk[..i], keep) + if walk[i] in keep then {} else {walk[i]}
  {
    assert walk[..i + 1] == walk[..i] + [walk[i]];
  }

  /** A digest the reference tables protect is kept by any collection that consults them. */
  lemma ProtectedIsReachable(s: ObjectRefs.State, now: int, d: string,
                             roots: seq<Root>, casRoot: string, minSize: int, hash: Bytes -> string)
    requires d in ObjectRefs.Protected(s, now) && |d| == DIGEST_LENGTH && Lower(d) == d
    ensures d in Reachable(roots, casRoot, minSize, ObjectRefs.Protected(s, now), hash)
  {
    assert Lower(d) in set x | x in ObjectRefs.Protected(s, now) && |x| == DIGEST_LENGTH :: Lower(x);
  }

  /** A collection that consults the tables keeps a shard in transfer at every moment between the
      acquisition of its lease and the lease's expiry, and at every moment once it is referenced. */
  lemma TransferSurvivesCollection(
    states: seq<ObjectRefs.State>, events: seq<ObjectRefs.Event>, i: nat,
    id: string, digest: string, owner: string, until: int, now: int,
    roots: seq<Root>, casRoot: string, minSize: int, hash: Bytes -> string)
    requires ObjectRefs.Run(states, events) && ObjectRefs.Balanced(states[0]) && i < |states|
    requires |digest| == DIGEST_LENGTH && Lower(digest) == digest && owner != ""
    requires ObjectRefs.Leased(states[0], id, digest, until)
    requires forall k :: 0 <= k < |events| ==> ObjectRefs.Disciplined(states[k], events[k], id, digest, owner, until)
    requires now < until || exists j :: 0 <= j < i && ObjectRefs.Refers(events[j], digest, owner)
    ensures digest in Reachable(roots, casRoot, minSize, ObjectRefs.Protected(states[i], now), hash)
  {
    ObjectRefs.ProtectedThroughHandover(states, events, i, id, digest, owner, until, now);
    ProtectedIsReachable(states[i], now, digest, roots, casRoot, minSize, hash);
  }
}
