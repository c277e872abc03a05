/** Object-level synchronisation of content-addressed stores: who should hold an object,
    what a source packs for a target, how the target installs it (internal/cassync/cassync.go). */
module CasSync {
  import opened Prelude
  import opened Finite
  import opened Ordering
  import opened Inventory
  import opened CasManifest

  /** An archive entry: an object, the manifest, whose text ends after `length` characters, or anything else a
      stranger might send. */
  datatype Entry = Packed(digest: string, content: Bytes) | Index(items: seq<Item>, length: nat) | Stray(name: string)

  // --- Rendezvous placement ------------------------------------------------------------

  /** Agents with the higher score text first, ties by identity. `hash` is taken over the digest,
      a zero character and the identity. */
  function Precedes(digest: string, hash: string -> string, a: string, b: string): bool {
    var sa, sb := hash(digest + "\0" + a), hash(digest + "\0" + b);
    if sa == sb then TextLess(a, b) else TextLess(sb, sa)
  }

  function Rendezvous(digest: string, hash: string -> string): (string, string) -> bool {
    (a, b) => Precedes(digest, hash, a, b)
  }

  lemma RendezvousConnected(digest: string, hash: string -> string, a: string, b: string)
    ensures !Precedes(digest, hash, a, a)
    ensures a != b ==> Precedes(digest, hash, a, b) || Precedes(digest, hash, b, a)
  {
    TextConnected(a, b);
    TextConnected(hash(digest + "\0" + a), hash(digest + "\0" + b));
  }

  lemma RendezvousTransitive(digest: string, hash: string -> string, a: string, b: string, c: string)
    requires Precedes(digest, hash, a, b) && Precedes(digest, hash, b, c)
    ensures Precedes(digest, hash, a, c)
  {
    var sa, sb, sc := hash(digest + "\0" + a), hash(digest + "\0" + b), hash(digest + "\0" + c);
    if sa == sb == sc {
      TextTransitive(a, b, c);
    } else if sa != sb && sb != sc {
      TextTransitive(sc, sb, sa);
      TextConnected(sc, sb);
    }
  }

  lemma RendezvousOrder(digest: string, hash: string -> string)
    ensures StrictOrder(Rendezvous(digest, hash))
  {
    var less := Rendezvous(digest, hash);
    forall a: string, b: string ensures !less(a, a) && (a != b ==> less(a, b) || less(b, a)) {
      RendezvousConnected(digest, hash, a, b);
    }
    forall a: string, b: string, c: string | less(a, b) && less(b, c) ensures less(a, c) {
      RendezvousTransitive(digest, hash, a, b, c);
    }
  }

  ghost function Before(digest: string, hash: string -> string, pool: set<string>, id: string): set<string> {
    set y | y in pool && Precedes(digest, hash, y, id)
  }

  /** `id` is one of the `factor` agents of the pool that should hold the object. */
  ghost predicate Desired(digest: string, hash: string -> string, pool: set<string>, factor: int, id: string) {
    id in pool && |Before(digest, hash, pool, id)| < factor
  }

  method DesiredAgents(digest: string, pool: seq<string>, factor: nat, hash: string -> string) returns (out: seq<string>)
    requires Distinct(pool)
    ensures |out| == Min(factor, |pool|) && Ascending(out, Rendezvous(digest, hash))
    ensures forall id :: id in out <==> Desired(digest, hash, Elements(pool), factor, id)
  {
    RendezvousOrder(digest, hash);
    var xs := Sort(pool, Rendezvous(digest, hash));
    out := xs[..Min(factor, |xs|)];
    RanksDecide(digest, hash, xs, Elements(pool), factor);
  }

  lemma RankOf(digest: string, hash: string -> string, xs: seq<string>, pool: set<string>, i: nat)
    requires Arranges(xs, pool, Rendezvous(digest, hash)) && i < |xs|
    ensures |Before(digest, hash, pool, xs[i])| == i
  {
    RendezvousOrder(digest, hash);
    var less := Rendezvous(digest, hash);
    RankIsIndex(xs, less, i);
    assert Before(digest, hash, pool, xs[i]) == Lesser(xs, less, xs[i]);
  }

  lemma RanksDecide(digest: string, hash: string -> string, xs: seq<string>, pool: set<string>, factor: nat)
    requires Arranges(xs, pool, Rendezvous(digest, hash))
    ensures forall id :: id in xs[..Min(factor, |xs|)] <==> Desired(digest, hash, pool, factor, id)
  {
    var chosen := xs[..Min(factor, |xs|)];
    forall id ensures id in chosen <==> Desired(digest, hash, pool, factor, id) {
      RankDecides(digest, hash, xs, pool, factor, id);
    }
  }

  lemma RankDecides(digest: string, hash: string -> string, xs: seq<string>, pool: set<string>, factor: nat, id: string)
    requires Arranges(xs, pool, Rendezvous(digest, hash))
    ensures id in xs[..Min(factor, |xs|)] <==> Desired(digest, hash, pool, factor, id)
  {
    var chosen := xs[..Min(factor, |xs|)];
    if Desired(digest, hash, pool, factor, id) {
      assert id in xs;
      var i :| 0 <= i < |xs| && xs[i] == id;
      RankOf(digest, hash, xs, pool, i);
      assert chosen[i] == id;
    }
    if id in chosen {
      var i :| 0 <= i < |chosen| && chosen[i] == id;
      RankOf(digest, hash, xs, pool, i);
      assert id in xs;
    }
  }

  /** The choice depends on which agents are in the pool, not on the order they are listed in. */
  lemma OrderIrrelevant(digest: string, hash: string -> string, pool: set<string>, factor: int, a: seq<string>, b: seq<string>)
    requires Ascending(a, Rendezvous(digest, hash)) && Ascending(b, Rendezvous(digest, hash))
    requires forall id :: id in a <==> Desired(digest, hash, pool, factor, id)
    requires forall id :: id in b <==> Desired(digest, hash, pool, factor, id)
    ensures a == b
  {
    RendezvousOrder(digest, hash);
    var chosen := set id | id in pool && Desired(digest, hash, pool, factor, id);
    SortedUnique(a, b, chosen, Rendezvous(digest, hash));
  }

  lemma EarlierIsLess(digest: string, hash: string -> string, pool: set<string>, x: string, y: string)
    requires x in pool && Precedes(digest, hash, x, y)
    ensures |Before(digest, hash, pool, x)| < |Before(digest, hash, pool, y)|
  {
    var shorter, longer := Before(digest, hash, pool, x), Before(digest, hash, pool, y);
    forall z | z in shorter ensures z in longer {
      RendezvousTransitive(digest, hash, z, x, y);
    }
    RendezvousConnected(digest, hash, x, x);
    SubsetSize(shorter + {x}, longer);
  }

  lemma NewcomerCounts(digest: string, hash: string -> string, pool: set<string>, z: string, x: string)
    ensures |Before(digest, hash, pool, x)| <= |Before(digest, hash, pool + {z}, x)| <= |Before(digest, hash, pool, x)| + 1
  {
    var was, now := Before(digest, hash, pool, x), Before(digest, hash, pool + {z}, x);
    SubsetSize(was, now);
    SubsetSize(now, was + {z});
  }

  /** An agent that joins displaces at most one of the agents chosen for a digest. */
  lemma JoiningDisplacesOne(digest: string, hash: string -> string, pool: set<string>, factor: int, z: string, x: string, y: string)
    requires Desired(digest, hash, pool, factor, x) && !Desired(digest, hash, pool + {z}, factor, x)
    requires Desired(digest, hash, pool, factor, y) && !Desired(digest, hash, pool + {z}, factor, y)
    ensures x == y
  {
    NewcomerCounts(digest, hash, pool, z, x);
    NewcomerCounts(digest, hash, pool, z, y);
    RendezvousConnected(digest, hash, x, y);
    if Precedes(digest, hash, x, y) {
      EarlierIsLess(digest, hash, pool, x, y);
    } else if Precedes(digest, hash, y, x) {
      EarlierIsLess(digest, hash, pool, y, x);
    }
  }

  /** Of the agents already there, joining promotes none, and leaving displaces none. */
  lemma LeavingKeepsChosen(digest: string, hash: string -> string, pool: set<string>, factor: int, z: string, x: string)
    requires Desired(digest, hash, pool, factor, x) && x != z
    ensures Desired(digest, hash, pool - {z}, factor, x)
  {
    NewcomerCounts(digest, hash, pool - {z}, z, x);
    if z in pool {
      assert pool - {z} + {z} == pool;
    } else {
      assert pool - {z} == pool;
    }
  }

  // --- Archive --------------------------------------------------------------------------

  /** Some desired object of the requested prefixes must be sent. */
  ghost predicate Wanted(d: string, store: Objects, prefixes: set<string>, pool: set<string>, factor: int,
                         target: string, hash: string -> string)
  {
    && d in store && |PrefixOf(d)| == 2 && PrefixOf(d) in prefixes && ValidDigest(d)
    && Desired(d, hash, pool, factor, target)
  }

  ghost function Parcel(store: Objects, prefixes: set<string>, pool: set<string>, factor: int,
                        target: string, hash: string -> string): Objects
  {
    map d | d in store && Wanted(d, store, prefixes, pool, factor, target, hash) :: store[d]
  }

  /** The objects an archive carries; a repeated digest is a malformed archive. */
  function Contents(entries: seq<Entry>): Objects {
    if entries == [] then map[]
    else
      match entries[|entries| - 1]
      case Packed(d, content) => Contents(entries[..|entries| - 1])[d := content]
      case _ => Contents(entries[..|entries| - 1])
  }

  /** Every object under its true digest, each once, then the manifest of exactly them. */
  ghost predicate Faithful(entries: seq<Entry>, sum: Bytes -> string) {
    && entries != [] && entries[|entries| - 1].Index?
    && (forall i :: 0 <= i < |entries| - 1 ==>
          entries[i].Packed? && ValidDigest(entries[i].digest) && sum(entries[i].content) == entries[i].digest)
    && (forall i, j :: 0 <= i < j < |entries| - 1 ==> entries[i].digest != entries[j].digest)
    && var last := entries[|entries| - 1];
       last.length == |ManifestText(last.items)| && Lists(last.items, Contents(entries))
  }

  /** The prefixes that a request names, in lower case. */
  function Lowered(prefixes: seq<string>): set<string> {
    set p | p in prefixes :: Lower(p)
  }

  method Archive(store: Objects, prefixes: seq<string>, pool: seq<string>, factor: int, target: string,
                 hash: string -> string, sum: Bytes -> string)
    returns (entries: seq<Entry>, ok: bool)
    requires Distinct(pool)
    ensures factor > 0 ==>
              var parcel := Parcel(store, Lowered(prefixes), Elements(pool), factor, target, hash);
              && (ok <==> forall d :: d in parcel ==> sum(parcel[d]) == d)
              && (ok ==> Faithful(entries, sum) && Contents(entries) == parcel)
    ensures factor <= 0 ==> ok && entries == []
  {
    entries, ok := [], true;
    if factor <= 0 {
      return;
    }
    var names := SelectObjects(store, Lowered(prefixes), pool, factor, target, hash);
    ghost var parcel := Parcel(store, Lowered(prefixes), Elements(pool), factor, target, hash);
    var packed: seq<Entry>;
    packed, ok := Pack(store, names, sum);
    if ok {
      entries := Seal(packed, names, store, sum);
      SealedFaithful(store, names, packed, entries, sum);
      assert Contents(entries) == parcel;
    } else {
      var d :| d in names && sum(store[d]) != d;
      assert d in parcel;
    }
  }

  method SelectObjects(store: Objects, prefixes: set<string>, pool: seq<string>, factor: int, target: string, hash: string -> string)
    returns (names: seq<string>)
    requires Distinct(pool) && 0 < factor
    ensures Distinct(names)
    ensures forall d :: d in names <==> Wanted(d, store, prefixes, Elements(pool), factor, target, hash)
  {
    names := [];
    var todo := store.Keys;
    while todo != {}
      invariant todo <= store.Keys && Distinct(names)
      invariant forall d :: d in names <==> d !in todo && Wanted(d, store, prefixes, Elements(pool), factor, target, hash)
    {
      var d :| d in todo;
      todo := todo - {d};
      if |PrefixOf(d)| == 2 && PrefixOf(d) in prefixes && ValidDigest(d) {
        var desired := DesiredAgents(d, pool, factor, hash);
        if target in desired {
          names := names + [d];
        }
      }
    }
  }

  /** `packed` are the stored objects of these names, in their order, all under their true digests. */
  ghost predicate PackedAll(packed: seq<Entry>, names: seq<string>, store: Objects, sum: Bytes -> string) {
    && |packed| == |names|
    && (forall d :: d in names ==> d in store && sum(store[d]) == d)
    && (forall i :: 0 <= i < |names| ==> names[i] in names && packed[i] == Packed(names[i], store[names[i]]))
    && Contents(packed) == map d | d in names :: store[d]
  }

  lemma PackStep(packed: seq<Entry>, names: seq<string>, store: Objects, sum: Bytes -> string, d: string)
    requires PackedAll(packed, names, store, sum) && d in store && sum(store[d]) == d
    ensures PackedAll(packed + [Packed(d, store[d])], names + [d], store, sum)
  {
    assert (packed + [Packed(d, store[d])])[..|packed|] == packed;
  }

  method Pack(store: Objects, names: seq<string>, sum: Bytes -> string) returns (packed: seq<Entry>, ok: bool)
    requires forall d :: d in names ==> d in store
    ensures ok <==> forall d :: d in names ==> sum(store[d]) == d
    ensures ok ==> PackedAll(packed, names, store, sum)
  {
    packed, ok := [], true;
    for i := 0 to |names|
      invariant PackedAll(packed, names[..i], store, sum)
    {
      assert names[..i + 1] == names[..i] + [names[i]];
      if sum(store[names[i]]) != names[i] {
        ok := false;
        return;
      }
      PackStep(packed, names[..i], store, sum, names[i]);
      packed := packed + [Packed(names[i], store[names[i]])];
    }
    assert names[..|names|] == names;
  }

  /** The manifest comes last and lists the objects in the order of their digests. */
  method Seal(packed: seq<Entry>, names: seq<string>, store: Objects, sum: Bytes -> string) returns (entries: seq<Entry>)
    requires PackedAll(packed, names, store, sum) && Distinct(names)
    ensures |entries| == |packed| + 1 && entries == packed + [entries[|packed|]] && entries[|packed|].Index?
    ensures var last := entries[|packed|]; last.length == |ManifestText(last.items)| && Lists(last.items, Contents(entries))
    ensures Contents(entries) == Contents(packed)
  {
    TextOrder();
    var sorted := Sort(names, TextLess);
    var items: seq<Item> := [];
    for i := 0 to |sorted|
      invariant |items| == i && forall j :: 0 <= j < i ==> sorted[j] in store && items[j] == Item(sorted[j], |store[sorted[j]]|)
    {
      assert sorted[i] in sorted && sorted[i] in names;
      items := items + [Item(sorted[i], |store[sorted[i]]|)];
    }
    entries := packed + [Index(items, |ManifestText(items)|)];
    ContentsIndexed(packed, entries[|packed|]);
    SortedLists(sorted, names, items, store);
  }

  lemma SortedLists(sorted: seq<string>, names: seq<string>, items: seq<Item>, store: Objects)
    requires Arranges(sorted, Elements(names), TextLess) && |items| == |sorted|
    requires forall j :: 0 <= j < |sorted| ==> sorted[j] in store && items[j] == Item(sorted[j], |store[sorted[j]]|)
    requires forall d :: d in names ==> d in store
    ensures Lists(items, map d | d in names :: store[d])
  {
    forall d | d in names ensures d in Named(items) {
      assert d in Elements(names) && d in sorted;
      var j :| 0 <= j < |sorted| && sorted[j] == d;
      assert items[j] in items;
    }
    forall i | i in items ensures i.digest in names && i.bytes == |store[i.digest]| {
      var j :| 0 <= j < |items| && items[j] == i;
      assert sorted[j] in sorted;
    }
  }

  lemma ContentsIndexed(packed: seq<Entry>, index: Entry)
    requires index.Index?
    ensures Contents(packed + [index]) == Contents(packed)
  {
    assert (packed + [index])[..|packed|] == packed;
  }

  // --- Explicit digests --------------------------------------------------------------------

  function Normal(d: string): string {
    Lower(TrimSpace(d))
  }

  /** The requested digest is well formed and the store holds intact bytes under it. */
  predicate Available(d: string, store: Objects, sum: Bytes -> string) {
    ValidDigest(Normal(d)) && Normal(d) in store && EqualFold(sum(store[Normal(d)]), Normal(d))
  }

  ghost function Requested(digests: seq<string>): set<string> {
    set d | d in digests :: Normal(d)
  }

  lemma {:induction false} LowerFixed(d: string)
    requires ValidDigest(d)
    ensures Lower(d) == d
  {
    forall i | 0 <= i < |d| ensures LowerChar(d[i]) == d[i] {
      assert HexDigit(d[i]);
    }
  }

  lemma IntactMeansTrue(d: string, content: Bytes, sum: Bytes -> string)
    requires Digest(sum) && ValidDigest(d)
    ensures EqualFold(sum(content), d) <==> sum(content) == d
  {
    LowerFixed(d);
    assert Lower(sum(content)) == sum(content);
  }

  method ArchiveDigests(store: Objects, digests: seq<string>, sum: Bytes -> string) returns (entries: seq<Entry>, ok: bool)
    requires Digest(sum)
    ensures ok <==> forall d :: d in digests ==> Available(d, store, sum)
    ensures ok ==> Faithful(entries, sum) && Carries(entries, store, digests)
  {
    entries, ok := [], true;
    var unique: set<string>;
    unique, ok := Normalise(digests);
    if !ok {
      return;
    }
    TextOrder();
    var list := Listing(unique);
    var names := Sort(list, TextLess);
    AscendingDistinct(names, TextLess);
    assert forall d :: d in names <==> d in Elements(list);
    entries, ok := ArchiveNamed(store, digests, names, sum);
  }

  method ArchiveNamed(store: Objects, digests: seq<string>, names: seq<string>, sum: Bytes -> string)
    returns (entries: seq<Entry>, ok: bool)
    requires Digest(sum) && Distinct(names) && forall d :: d in names <==> d in Requested(digests)
    requires forall d :: d in names ==> ValidDigest(d)
    ensures ok <==> forall d :: d in digests ==> Available(d, store, sum)
    ensures ok ==> Faithful(entries, sum) && Carries(entries, store, digests)
  {
    entries := [];
    var packed: seq<Entry>;
    packed, ok := PackNamed(store, names, sum);
    if ok {
      entries := Seal(packed, names, store, sum);
      SealedCarries(store, digests, names, packed, entries, sum);
      SealedFaithful(store, names, packed, entries, sum);
    } else {
      MissingIsUnavailable(store, digests, names, sum);
    }
  }

  /** Distinct objects under their true digests, then the manifest. */
  lemma SealedFaithful(store: Objects, names: seq<string>, packed: seq<Entry>, entries: seq<Entry>, sum: Bytes -> string)
    requires Distinct(names) && PackedAll(packed, names, store, sum) && forall d :: d in names ==> ValidDigest(d)
    requires |entries| == |packed| + 1 && entries == packed + [entries[|packed|]] && entries[|packed|].Index?
    requires var last := entries[|packed|]; last.length == |ManifestText(last.items)| && Lists(last.items, Contents(entries))
    ensures Faithful(entries, sum)
  {
    forall i | 0 <= i < |packed| ensures entries[i] == Packed(names[i], store[names[i]]) {
      assert names[i] in names;
    }
  }

  /** The archive holds the store's bytes for the requested digests and nothing else. */
  ghost predicate Carries(entries: seq<Entry>, store: Objects, digests: seq<string>) {
    && Contents(entries).Keys == Requested(digests)
    && forall d :: d in Contents(entries) ==> d in store && Contents(entries)[d] == store[d]
  }

  lemma SealedCarries(store: Objects, digests: seq<string>, names: seq<string>, packed: seq<Entry>, entries: seq<Entry>,
                      sum: Bytes -> string)
    requires Digest(sum) && forall d :: d in names <==> d in Requested(digests)
    requires forall d :: d in names ==> ValidDigest(d) && d in store && sum(store[d]) == d
    requires Contents(packed) == map d | d in names :: store[d]
    requires |entries| == |packed| + 1 && entries == packed + [entries[|packed|]] && entries[|packed|].Index?
    ensures Carries(entries, store, digests)
    ensures forall d :: d in digests ==> Available(d, store, sum)
  {
    ContentsIndexed(packed, entries[|packed|]);
    forall d | d in digests ensures Available(d, store, sum) {
      assert Normal(d) in Requested(digests);
      IntactMeansTrue(Normal(d), store[Normal(d)], sum);
    }
  }

  lemma RequestedStep(digests: seq<string>, d: string)
    ensures Requested(digests + [d]) == Requested(digests) + {Normal(d)}
  {
    assert forall e :: e in digests + [d] <==> e in digests || e == d;
    assert d in digests + [d];
  }

  lemma MissingIsUnavailable(store: Objects, digests: seq<string>, names: seq<string>, sum: Bytes -> string)
    requires Digest(sum) && forall d :: d in names <==> d in Requested(digests)
    requires forall d :: d in names ==> ValidDigest(d)
    requires exists d :: d in names && (d !in store || sum(store[d]) != d)
    ensures exists d :: d in digests && !Available(d, store, sum)
  {
    var n :| n in names && (n !in store || sum(store[n]) != n);
    var d :| d in digests && Normal(d) == n;
    if n in store {
      IntactMeansTrue(n, store[n], sum);
    }
    assert !Available(d, store, sum);
  }

  method Normalise(digests: seq<string>) returns (unique: set<string>, ok: bool)
    ensures ok <==> forall d :: d in digests ==> ValidDigest(Normal(d))
    ensures ok ==> unique == Requested(digests) && forall d :: d in unique ==> ValidDigest(d)
  {
    unique, ok := {}, true;
    for i := 0 to |digests|
      invariant forall d :: d in digests[..i] ==> ValidDigest(Normal(d))
      invariant unique == Requested(digests[..i]) && forall d :: d in unique ==> ValidDigest(d)
    {
      assert digests[..i + 1] == digests[..i] + [digests[i]];
      RequestedStep(digests[..i], digests[i]);
      var d := Lower(TrimSpace(digests[i]));
      if !ValidDigest(d) {
        assert digests[i] in digests;
        ok := false;
        return;
      }
      unique := unique + {d};
    }
    assert digests[..|digests|] == digests;
  }

  method PackNamed(store: Objects, names: seq<string>, sum: Bytes -> string) returns (packed: seq<Entry>, ok: bool)
    requires Digest(sum) && forall d :: d in names ==> ValidDigest(d)
    ensures ok <==> forall d :: d in names ==> d in store && sum(store[d]) == d
    ensures ok ==> PackedAll(packed, names, store, sum)
  {
    packed, ok := [], true;
    for i := 0 to |names|
      invariant PackedAll(packed, names[..i], store, sum)
    {
      assert names[..i + 1] == names[..i] + [names[i]];
      assert names[i] in names;
      if names[i] !in store {
        ok := false;
        return;
      }
      IntactMeansTrue(names[i], store[names[i]], sum);
      if !EqualFold(sum(store[names[i]]), names[i]) {
        ok := false;
        return;
      }
      PackStep(packed, names[..i], store, sum, names[i]);
      packed := packed + [Packed(names[i], store[names[i]])];
    }
    assert names[..|names|] == names;
  }
}
