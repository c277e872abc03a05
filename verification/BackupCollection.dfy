/** What garbage collection owes to backups: the objects of which files it keeps, and that ingested files are
    among them (internal/cas/cas.go). */
module BackupCollection {
  import opened Prelude
  import opened Finite
  import opened CasStore
  import CasIngest

  lemma EndsIff(s: string, suffix: string)
    ensures EndsWith(s, suffix) <==> exists stem :: s == stem + suffix
  {
    if EndsWith(s, suffix) {
      assert s == s[..|s| - |suffix|] + suffix;
    }
  }

  /** `part` occurs in `s` from some position on. */
  lemma {:induction false} MentionsIff(s: string, part: string)
    requires part != ""
    ensures Mentions(s, part) <==> exists before, after :: s == before + part + after
  {
    if Mentions(s, part) {
      var before, after := Occurrence(s, part);
    }
    forall before, after | s == before + part + after ensures Mentions(s, part) {
      Occurs(s, part, before, after);
    }
  }

  lemma {:induction false} Occurrence(s: string, part: string) returns (before: string, after: string)
    requires part != "" && Mentions(s, part)
    ensures s == before + part + after
  {
    if part <= s {
      before, after := "", s[|part|..];
    } else {
      before, after := Occurrence(s[1..], part);
      before := [s[0]] + before;
      assert s == [s[0]] + s[1..];
    }
  }

  lemma {:induction false} Occurs(s: string, part: string, before: string, after: string)
    requires part != "" && s == before + part + after
    ensures Mentions(s, part)
    decreases |s|
  {
    if before == "" {
      assert s == part + after;
    } else {
      assert s[1..] == before[1..] + part + after;
      Occurs(s[1..], part, before[1..], after);
    }
  }

  /** A sidecar by its ending, or something below a directory of manifests or of state. */
  ghost predicate Sidecar(path: string) {
    || (exists stem :: Lower(path) == stem + ".json" || Lower(path) == stem + ".sig" || Lower(path) == stem + ".sha256")
    || (exists before, after :: Lower(path) == before + "/manifests/" + after)
    || (exists before, after :: Lower(path) == before + "/state/" + after)
  }

  /** The root is given and there, and is neither the store nor below it. */
  ghost predicate BackupRoot(r: Root, casRoot: string) {
    TrimSpace(r.given) != "" && r.exists_ && r.absolute != casRoot && forall below :: r.absolute != casRoot + "/" + below
  }

  lemma SidecarIff(path: string)
    ensures SkipLogical(path) <==> Sidecar(path)
  {
    var p := Lower(path);
    EndsIff(p, ".json");
    EndsIff(p, ".sig");
    EndsIff(p, ".sha256");
    EndsIff(p, ".sig.json");
    if stem :| p == stem + ".sig.json" {
      assert p == (stem + ".sig") + ".json";
    }
    MentionsIff(p, "/manifests/");
    MentionsIff(p, "/state/");
  }

  lemma BelowIff(casRoot: string, absolute: string)
    ensures (casRoot + "/") <= absolute <==> exists below :: absolute == casRoot + "/" + below
  {
    if (casRoot + "/") <= absolute {
      assert absolute == casRoot + "/" + absolute[|casRoot| + 1..];
    }
  }

  /** A regular file of at least the minimal size has the object's content, lies below a backup root and is no
      sidecar; or the control plane protects the object, in whatever letters. */
  ghost predicate Precious(roots: seq<Root>, casRoot: string, minSize: int, protected: set<string>, hash: Bytes -> string, d: string) {
    || (exists r, f :: r in roots && f in r.files && BackupRoot(r, casRoot)
                       && f.regular && minSize <= |f.content| && !Sidecar(f.path) && hash(f.content) == d)
    || (exists p :: p in protected && |p| == 64 && Lower(p) == d)
  }

  lemma KeptIff(roots: seq<Root>, casRoot: string, minSize: int, protected: set<string>, hash: Bytes -> string, d: string)
    ensures d in Reachable(roots, casRoot, minSize, protected, hash) <==> Precious(roots, casRoot, minSize, protected, hash, d)
  {
    forall r, f | r in roots && f in r.files
      ensures Walked(r, casRoot) && Payload(f, minSize) <==>
              BackupRoot(r, casRoot) && f.regular && minSize <= |f.content| && !Sidecar(f.path)
    {
      SidecarIff(f.path);
      BelowIff(casRoot, r.absolute);
    }
  }

  /** How many files a collection reports as scanned: those, each time one is met. */
  ghost function Met(files: seq<LogicalFile>, minSize: int): nat {
    if files == [] then 0
    else
      var f := files[|files| - 1];
      Met(files[..|files| - 1], minSize) + if f.regular && minSize <= |f.content| && !Sidecar(f.path) then 1 else 0
  }

  lemma {:induction false} MetIsCounted(files: seq<LogicalFile>, minSize: int)
    ensures PayloadCount(files, minSize) == Met(files, minSize)
  {
    if files != [] {
      MetIsCounted(files[..|files| - 1], minSize);
      SidecarIff(files[|files| - 1].path);
    }
  }

  /** Every root that is walked adds what is met below it, as often as it is given. */
  lemma {:induction false} ScannedByRoot(before: seq<Root>, r: Root, after: seq<Root>, casRoot: string, minSize: int)
    ensures ScanCount(before + [r] + after, casRoot, minSize)
         == ScanCount(before, casRoot, minSize) + (if BackupRoot(r, casRoot) then Met(r.files, minSize) else 0)
            + ScanCount(after, casRoot, minSize)
    decreases |after|
  {
    var all := before + [r] + after;
    if after == [] {
      assert all == before + [r] && all[..|all| - 1] == before;
      MetIsCounted(r.files, minSize);
      BelowIff(casRoot, r.absolute);
    } else {
      var n := |after| - 1;
      ScannedByRoot(before, r, after[..n], casRoot, minSize);
      assert all[..|all| - 1] == before + [r] + after[..n] && all[|all| - 1] == after[n];
    }
  }

  /** The bytes reported as removed are those of the objects that are not kept, one by one. */
  lemma {:induction false} RemovedByObject(objects: Objects, before: seq<string>, name: string, after: seq<string>, keep: set<string>)
    requires forall n :: n in before || n == name || n in after ==> n in objects
    ensures Size(objects, before + [name] + after, keep)
         == Size(objects, before, keep) + (if name !in keep then |objects[name]| else 0) + Size(objects, after, keep)
    decreases |after|
  {
    var all := before + [name] + after;
    if after == [] {
      assert all == before + [name] && all[..|all| - 1] == before;
    } else {
      var n := |after| - 1;
      RemovedByObject(objects, before, name, after[..n], keep);
      assert all[..|all| - 1] == before + [name] + after[..n] && all[|all| - 1] == after[n];
    }
  }

  /** A file that `Ingest` stored keeps its object through any collection with the same minimal size that walks a
      root with the file below it, unless the file is a sidecar. */
  method IngestedSurvives(disk: CasIngest.Disk, path: string, layout: CasIngest.Layout, links: bool,
                          store: Store, root: Root, roots: seq<Root>, casRoot: string, minSize: int, dryRun: bool,
                          protected: set<string>, hash: Bytes -> string, walk: seq<string>)
    returns (out: GcResult, ok: bool)
    requires CasIngest.Wellformed(disk) && CasIngest.Ingested(disk, path, layout, hash, minSize, links).1.Stored?
    requires root in roots && BackupRoot(root, casRoot) && LogicalFile(path, true, CasIngest.Read(disk, path).value) in root.files
    requires !Sidecar(path)
    requires Distinct(walk) && forall n :: n in walk <==> n in store.objects
    modifies store
    ensures var d := CasIngest.Ingested(disk, path, layout, hash, minSize, links).1.sha256;
            d in old(store.objects) ==> d in store.objects && store.objects[d] == old(store.objects)[d]
  {
    ghost var d := CasIngest.Ingested(disk, path, layout, hash, minSize, links).1.sha256;
    KeptIff(roots, casRoot, minSize, protected, hash, d);
    out, ok := store.GCProtected(roots, casRoot, minSize, dryRun, protected, hash, walk);
  }

  /** What collection leaves, in the terms of the files: unless a name is malformed or nothing is to be changed,
      exactly the objects whose content some backup file has, and the protected ones. */
  method CollectBackups(store: Store, roots: seq<Root>, casRoot: string, minSize: int, protected: set<string>,
                        hash: Bytes -> string, walk: seq<string>)
    returns (out: GcResult, ok: bool)
    requires Distinct(walk) && forall n :: n in walk <==> n in store.objects
    modifies store
    ensures ok <==> forall n :: n in old(store.objects) ==> |n| == 64
    ensures ok ==> forall d :: d in store.objects <==> d in old(store.objects) && Precious(roots, casRoot, minSize, protected, hash, d)
  {
    forall d ensures d in Reachable(roots, casRoot, minSize, protected, hash) <==> Precious(roots, casRoot, minSize, protected, hash, d) {
      KeptIff(roots, casRoot, minSize, protected, hash, d);
    }
    out, ok := store.GCProtected(roots, casRoot, minSize, false, protected, hash, walk);
  }
}
