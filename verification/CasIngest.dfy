/** Moving files into the content-addressed store by hard links (internal/cas/cas.go, Ingest),
    and what rewriting an object in place does to the files linked to it
    (internal/controlplane/repair_distributed.go, overwriteVerified). */
module CasIngest {
  import opened Prelude

  /** Regular files by path, sharing their bytes through inodes numbered below `next`. */
  datatype Disk = Disk(names: map<string, nat>, data: map<nat, Bytes>, next: nat)

  datatype Outcome =
    | Missing
    | TooSmall
    | SizeMismatch
    | Stored(sha256: string, existing: bool, linked: bool, reclaimed: nat)

  type Hash = Bytes -> string

  /** The path of the object with a given digest. */
  type Layout = string -> string

  predicate Wellformed(d: Disk) {
    && (forall p :: p in d.names ==> d.names[p] in d.data)
    && forall i :: i in d.data ==> i < d.next
  }

  function Read(d: Disk, path: string): Option<Bytes>
    requires Wellformed(d)
  {
    if path in d.names then Some(d.data[d.names[path]]) else None
  }

  function Swap(path: string): string {
    path + ".repoark-cas-swap"
  }

  /** Objects have paths of their own, none of which is the scratch name used for `path`. */
  ghost predicate Separate(layout: Layout, path: string) {
    (forall a, b :: layout(a) == layout(b) ==> a == b) && forall a :: layout(a) != Swap(path)
  }

  function WithObject(d: Disk, blob: string, content: Bytes): Disk {
    if blob in d.names then d else Disk(d.names[blob := d.next], d.data[d.next := content], d.next + 1)
  }

  /** `links` tells whether the file system lets the file be replaced by a link. */
  function Ingested(d: Disk, path: string, layout: Layout, hash: Hash, minSize: int, links: bool): (Disk, Outcome)
    requires Wellformed(d)
  {
    if path !in d.names then (d, Missing)
    else
      var content := d.data[d.names[path]];
      var blob := layout(hash(content));
      if |content| < minSize then (d, TooSmall)
      else if blob in d.names && |d.data[d.names[blob]]| != |content| then (d, SizeMismatch)
      else
        var existing, now := blob in d.names, WithObject(d, blob, content);
        if now.names[path] == now.names[blob] then (now, Stored(hash(content), existing, true, 0))
        else if links then
          (now.(names := (now.names - {Swap(path)})[path := now.names[blob]]),
           Stored(hash(content), existing, true, if existing then |content| else 0))
        else (now.(names := now.names - {Swap(path)}), Stored(hash(content), existing, false, 0))
  }

  class FileSystem {
    var names: map<string, nat>
    var data: map<nat, Bytes>
    var next: nat

    function Now(): Disk
      reads this
    {
      Disk(names, data, next)
    }

    constructor ()
      ensures Now() == Disk(map[], map[], 0)
    {
      names, data, next := map[], map[], 0;
    }

    method Ingest(path: string, layout: Layout, hash: Hash, minSize: int, links: bool) returns (out: Outcome)
      requires Wellformed(Now()) && Separate(layout, path)
      modifies this
      ensures Wellformed(Now())
      ensures (Now(), out) == Ingested(old(Now()), path, layout, hash, minSize, links)
    {
      if path !in names {
        return Missing;
      }
      var content := data[names[path]];
      if |content| < minSize {
        return TooSmall;
      }
      var sum := hash(content);
      var blob := layout(sum);
      var existing := false;
      if blob in names {
        if |data[names[blob]]| != |content| {
          return SizeMismatch;
        }
        existing := true;
      } else {
        names, data, next := names[blob := next], data[next := content], next + 1;
      }
      if names[path] == names[blob] {
        return Stored(sum, existing, true, 0);
      }
      names := names - {Swap(path)};
      if !links {
        return Stored(sum, existing, false, 0);
      }
      names := names[path := names[blob]];
      out := Stored(sum, existing, true, if existing then |content| else 0);
    }

    /** Truncates and rewrites a file that exists; never creates one. */
    method Overwrite(path: string, content: Bytes) returns (ok: bool)
      requires Wellformed(Now())
      modifies this`data
      ensures Wellformed(Now())
      ensures ok <==> path in names
      ensures Now() == if ok then Rewritten(old(Now()), path, content) else old(Now())
    {
      if path !in names {
        return false;
      }
      data := data[names[path] := content];
      ok := true;
    }
  }

  function Rewritten(d: Disk, path: string, content: Bytes): Disk
    requires path in d.names
  {
    d.(data := d.data[d.names[path] := content])
  }

  /** Every object has the content its path claims. */
  ghost predicate Intact(d: Disk, layout: Layout, hash: Hash)
    requires Wellformed(d)
  {
    forall s :: layout(s) in d.names ==> hash(d.data[d.names[layout(s)]]) == s
  }

  lemma IngestKeepsForm(d: Disk, path: string, layout: Layout, hash: Hash, minSize: int, links: bool)
    requires Wellformed(d)
    ensures Wellformed(Ingested(d, path, layout, hash, minSize, links).0)
  {
  }

  /** A stored file still reads as before exactly when its object is new, has the same bytes, or could not be
      linked. An object that was already there is compared by size alone, so a damaged one of the right size
      takes the place of a sound file. */
  lemma IngestPreservesIff(d: Disk, path: string, layout: Layout, hash: Hash, minSize: int, links: bool)
    requires Wellformed(d) && Separate(layout, path) && path in d.names
    ensures var (now, out) := Ingested(d, path, layout, hash, minSize, links);
            var blob := layout(hash(Read(d, path).value));
            Wellformed(now) &&
            (out.Stored? ==>
               (Read(now, path) == Read(d, path) <==>
                  blob !in d.names || Read(d, blob) == Read(d, path) || !links))
  {
    IngestKeepsForm(d, path, layout, hash, minSize, links);
  }

  /** Files other than the ingested one, its object and its scratch name are left alone. */
  lemma IngestTouchesNothingElse(d: Disk, path: string, layout: Layout, hash: Hash, minSize: int, links: bool, other: string)
    requires Wellformed(d) && Separate(layout, path)
    requires other != path && other != Swap(path)
    ensures var now := Ingested(d, path, layout, hash, minSize, links).0;
            && Wellformed(now)
            && (other in d.names ==> Read(now, other) == Read(d, other))
            && (other in now.names && other !in d.names ==> path in d.names && other == layout(hash(Read(d, path).value)))
  {
    IngestKeepsForm(d, path, layout, hash, minSize, links);
  }

  /** In a store whose objects are intact, ingesting changes no file's content and leaves the store intact. */
  lemma IngestIntoIntactStore(d: Disk, path: string, layout: Layout, hash: Hash, minSize: int, links: bool)
    requires Wellformed(d) && Separate(layout, path) && Digest(hash) && Intact(d, layout, hash)
    ensures var now := Ingested(d, path, layout, hash, minSize, links).0;
            && Wellformed(now) && Intact(now, layout, hash)
            && forall q :: q in d.names && q != Swap(path) ==> Read(now, q) == Read(d, q)
  {
    IngestKeepsForm(d, path, layout, hash, minSize, links);
    var now := Ingested(d, path, layout, hash, minSize, links).0;
    if path in d.names {
      var content := d.data[d.names[path]];
      ObjectIsSame(d, path, layout, hash);
      IngestPreservesIff(d, path, layout, hash, minSize, links);
      forall q | q in d.names && q != Swap(path) ensures Read(now, q) == Read(d, q) {
        if q != path {
          IngestTouchesNothingElse(d, path, layout, hash, minSize, links, q);
        }
      }
      forall s | layout(s) in now.names ensures hash(now.data[now.names[layout(s)]]) == s {
        ObjectStaysTrue(d, path, layout, hash, minSize, links, s);
      }
    }
  }

  lemma ObjectIsSame(d: Disk, path: string, layout: Layout, hash: Hash)
    requires Wellformed(d) && Digest(hash) && Intact(d, layout, hash) && path in d.names
    ensures var blob := layout(hash(d.data[d.names[path]])); blob in d.names ==> Read(d, blob) == Read(d, path)
  {
    var content := d.data[d.names[path]];
    var blob := layout(hash(content));
    if blob in d.names {
      assert hash(d.data[d.names[blob]]) == hash(content);
    }
  }

  lemma ObjectStaysTrue(d: Disk, path: string, layout: Layout, hash: Hash, minSize: int, links: bool, s: string)
    requires Wellformed(d) && Separate(layout, path) && Digest(hash) && Intact(d, layout, hash) && path in d.names
    requires layout(s) in Ingested(d, path, layout, hash, minSize, links).0.names
    ensures var now := Ingested(d, path, layout, hash, minSize, links).0;
            Wellformed(now) && hash(now.data[now.names[layout(s)]]) == s
  {
    IngestKeepsForm(d, path, layout, hash, minSize, links);
    var content := d.data[d.names[path]];
    ObjectIsSame(d, path, layout, hash);
    if layout(s) == path {
      assert hash(content) == s;
      IngestPreservesIff(d, path, layout, hash, minSize, links);
    } else if layout(s) in d.names {
      IngestTouchesNothingElse(d, path, layout, hash, minSize, links, layout(s));
    } else {
      IngestTouchesNothingElse(d, path, layout, hash, minSize, links, layout(s));
      assert s == hash(content);
    }
  }

  /** Rewriting an object in place repairs every file linked to it and no other. */
  lemma RewriteReachesLinks(d: Disk, blob: string, content: Bytes, path: string)
    requires Wellformed(d) && blob in d.names && path in d.names
    ensures Wellformed(Rewritten(d, blob, content))
    ensures Read(Rewritten(d, blob, content), path)
         == if d.names[path] == d.names[blob] then Some(content) else Read(d, path)
  {
  }

  /** A file that was linked into the store is restored with its object: whatever happened to the shared bytes,
      rewriting the object with the original content restores the file, and files that are not linked to it keep
      theirs. */
  lemma LinkedFileIsRepaired(d: Disk, path: string, layout: Layout, hash: Hash, minSize: int, damage: Bytes)
    requires Wellformed(d) && Separate(layout, path) && path in d.names
    requires var out := Ingested(d, path, layout, hash, minSize, true).1; out.Stored? && out.linked
    ensures var content := Read(d, path).value;
            var now := Ingested(d, path, layout, hash, minSize, true).0;
            var blob := layout(hash(content));
            && Wellformed(now) && blob in now.names
            && var damaged := Rewritten(now, blob, damage);
               && Read(damaged, path) == Some(damage)
               && Read(Rewritten(damaged, blob, content), path) == Some(content)
               && forall q :: q in now.names && now.names[q] != now.names[blob] ==> Read(Rewritten(damaged, blob, content), q) == Read(now, q)
  {
    IngestKeepsForm(d, path, layout, hash, minSize, true);
    var content := Read(d, path).value;
    var now, blob := Ingested(d, path, layout, hash, minSize, true).0, layout(hash(content));
    assert blob in now.names && now.names[path] == now.names[blob];
    forall q | q in now.names
      ensures var last := Rewritten(Rewritten(now, blob, damage), blob, content);
              Wellformed(last) && Read(last, q) == if now.names[q] == now.names[blob] then Some(content) else Read(now, q)
    {
      RewriteReachesLinks(now, blob, damage, q);
      RewriteReachesLinks(Rewritten(now, blob, damage), blob, content, q);
    }
    RewriteReachesLinks(now, blob, damage, path);
  }

  // --- Damage that spreads --------------------------------------------------------------------

  function ObjectPath(s: string): string {
    "sha256/" + s
  }

  /** Two files with the same content. */
  const TWINS := Disk(map["a" := 0, "b" := 1], map[0 := [1], 1 := [1]], 2)

  lemma PathsApart()
    ensures Separate(ObjectPath, "a") && Separate(ObjectPath, "b")
  {
    assert forall a, b :: ObjectPath(a) == ObjectPath(b) ==> a == ObjectPath(a)[7..] == b;
    assert forall a, p :: p == "a" || p == "b" ==> ObjectPath(a)[0] != Swap(p)[0];
  }

  lemma ScratchesApart()
    ensures {Swap("a"), Swap("b")} !! {"a", "b"} && "a" != "b"
  {
    assert |Swap("b")| > 1 && |Swap("a")| > 1 && "a"[0] != "b"[0];
  }

  /** The steps, for any digest: `x` is the content of the twins, and its object is the file `blob`. */
  lemma TwinsStored(hash: Hash, blob: string)
    requires blob == ObjectPath(hash([1])) && blob != "a" && blob != "b" && blob != Swap("a") && blob != Swap("b")
    ensures Wellformed(TWINS)
    ensures Ingested(TWINS, "a", ObjectPath, hash, 0, true)
         == (Disk(map["a" := 2, "b" := 1, blob := 2], map[0 := [1], 1 := [1], 2 := [1]], 3), Stored(hash([1]), false, true, 0))
  {
    ScratchesApart();
    assert [1] == TWINS.data[0] && TWINS.names["a"] == 0;
    var now := WithObject(TWINS, blob, [1]);
    assert now == Disk(map["a" := 0, "b" := 1, blob := 2], map[0 := [1], 1 := [1], 2 := [1]], 3);
    assert now.names - {Swap("a")} == now.names;
    assert now.names["a" := 2] == map["a" := 2, "b" := 1, blob := 2];
  }

  lemma TwinLinked(hash: Hash, blob: string)
    requires blob == ObjectPath(hash([1])) && blob != "a" && blob != "b" && blob != Swap("a") && blob != Swap("b")
    ensures var d := Disk(map["a" := 2, "b" := 1, blob := 2], map[0 := [1], 1 := [1], 2 := [2]], 3);
            Wellformed(d)
            && Ingested(d, "b", ObjectPath, hash, 0, true)
               == (Disk(map["a" := 2, "b" := 2, blob := 2], map[0 := [1], 1 := [1], 2 := [2]], 3), Stored(hash([1]), true, true, 1))
  {
    var d := Disk(map["a" := 2, "b" := 1, blob := 2], map[0 := [1], 1 := [1], 2 := [2]], 3);
    ScratchesApart();
    assert d.names - {Swap("b")} == d.names;
    assert d.names["b" := 2] == map["a" := 2, "b" := 2, blob := 2];
  }

  lemma NamesApart(blob: string)
    requires |blob| >= 7 && blob[0] == 's'
    ensures blob != "a" && blob != "b" && blob != Swap("a") && blob != Swap("b")
  {
    assert Swap("a")[0] == 'a' && Swap("b")[0] == 'b';
  }

  /** One twin is ingested, its object is damaged without changing its size, and the other twin, sound until
      then, is ingested: it now reads as the damaged object, and its content is gone. */
  lemma DamageSpreads(hash: Hash) returns (stored: Disk, damaged: Disk, spread: Disk, out: Outcome)
    ensures Wellformed(TWINS) && Separate(ObjectPath, "a") && Separate(ObjectPath, "b")
    ensures stored == Ingested(TWINS, "a", ObjectPath, hash, 0, true).0 && Wellformed(stored)
    ensures ObjectPath(hash([1])) in stored.names && damaged == Rewritten(stored, ObjectPath(hash([1])), [2]) && Wellformed(damaged)
    ensures (spread, out) == Ingested(damaged, "b", ObjectPath, hash, 0, true) && Wellformed(spread)
    ensures Read(damaged, "b") == Some([1]) && out.Stored? && out.sha256 == hash([1]) && Read(spread, "b") == Some([2])
    ensures forall p :: p in spread.names ==> Read(spread, p) != Some([1])
  {
    var blob := ObjectPath(hash([1]));
    PathsApart();
    NamesApart(blob);
    TwinsStored(hash, blob);
    TwinLinked(hash, blob);
    stored := Disk(map["a" := 2, "b" := 1, blob := 2], map[0 := [1], 1 := [1], 2 := [1]], 3);
    damaged := Disk(map["a" := 2, "b" := 1, blob := 2], map[0 := [1], 1 := [1], 2 := [2]], 3);
    spread, out := Disk(map["a" := 2, "b" := 2, blob := 2], map[0 := [1], 1 := [1], 2 := [2]], 3), Stored(hash([1]), true, true, 1);
  }
}
