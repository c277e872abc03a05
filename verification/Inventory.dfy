/** Merkle summaries of a content-addressed store and their comparison
    (internal/objectinventory/inventory.go). */
module Inventory {
  import opened Prelude
  import opened Finite
  import opened Ordering

  const DIGEST_LENGTH := 64

  /** Object sizes by digest. */
  type Catalogue = map<string, nat>

  datatype Segment = Segment(prefix: string, root: string, count: int, bytes: int)

  datatype Inventory = Inventory(merkleRoot: string, objects: int, bytes: int, segments: seq<Segment>)

  predicate HexDigit(c: char) {
    '0' <= c <= '9' || 'a' <= c <= 'f'
  }

  predicate ValidDigest(d: string) {
    |d| == DIGEST_LENGTH && forall i :: 0 <= i < |d| ==> HexDigit(d[i])
  }

  lemma HexDigitsOnly(b: Bytes, i: nat)
    requires i < |Hex(b)|
    ensures HexDigit(Hex(b)[i])
  {
    assert Hex(b)[i] == Nibble(HalfByte(b, i));
  }

  /** The text of 32 bytes is a digest. */
  lemma HexIsValid(b: Bytes)
    requires |b| == 32
    ensures ValidDigest(Hex(b))
  {
    forall i | 0 <= i < |Hex(b)| ensures HexDigit(Hex(b)[i]) {
      HexDigitsOnly(b, i);
    }
  }

  predicate Digests(c: Catalogue) {
    forall d :: d in c ==> ValidDigest(d)
  }

  function PrefixOf(d: string): string {
    if |d| < 2 then d else d[..2]
  }

  ghost function Under(c: Catalogue, prefix: string): set<string> {
    set d | d in c && PrefixOf(d) == prefix
  }

  // --- The hashed text --------------------------------------------------------------

  function Decimal(n: nat): (s: string)
    ensures s != ""
  {
    if n < 10 then [DIGITS[n]] else Decimal(n / 10) + [DIGITS[n % 10]]
  }

  const DIGITS := "0123456789"

  function Line(c: Catalogue, d: string): string
    requires d in c
  {
    d + ":" + Decimal(c[d])
  }

  /** The lines hashed for a segment, each ended by a newline. */
  function Text(c: Catalogue, leaves: seq<string>): string
    requires forall d :: d in leaves ==> d in c
  {
    if leaves == [] then "" else Text(c, leaves[..|leaves| - 1]) + (Line(c, leaves[|leaves| - 1]) + "\n")
  }

  function TotalBytes(c: Catalogue, leaves: seq<string>): nat
    requires forall d :: d in leaves ==> d in c
  {
    if leaves == [] then 0 else TotalBytes(c, leaves[..|leaves| - 1]) + c[leaves[|leaves| - 1]]
  }

  function TopText(segments: seq<Segment>): string {
    if segments == [] then ""
    else
      TopText(segments[..|segments| - 1]) + TopLine(segments[|segments| - 1])
  }

  function TopLine(s: Segment): string {
    s.prefix + ":" + s.root + ":" + Signed(s.count) + ":" + Signed(s.bytes) + "\n"
  }

  function Signed(n: int): string {
    if n < 0 then "-" + Decimal(-n) else Decimal(n)
  }

  /** `s` summarises the objects of `c` below one prefix. */
  ghost predicate Summarises(s: Segment, c: Catalogue, hash: string -> string) {
    exists leaves: seq<string> ::
      && Arranges(leaves, Under(c, s.prefix), TextLess) && (forall d :: d in leaves ==> d in c)
      && leaves != [] && s.root == hash(Text(c, leaves)) && s.count == |leaves| && s.bytes == TotalBytes(c, leaves)
  }

  /** One segment per occupied prefix. */
  ghost predicate Covers(segments: seq<Segment>, c: Catalogue, hash: string -> string) {
    && (forall i, j :: 0 <= i < j < |segments| ==> TextLess(segments[i].prefix, segments[j].prefix))
    && (forall i :: 0 <= i < |segments| ==> Summarises(segments[i], c, hash))
    && forall d :: d in c ==> exists i :: 0 <= i < |segments| && segments[i].prefix == PrefixOf(d)
  }

  // --- Building ------------------------------------------------------------------------

  method HashLeaves(c: Catalogue, leaves: seq<string>, hash: string -> string) returns (root: string, bytes: nat)
    requires forall d :: d in leaves ==> d in c
    ensures root == hash(Text(c, leaves)) && bytes == TotalBytes(c, leaves)
  {
    var text := "";
    bytes := 0;
    for i := 0 to |leaves|
      invariant text == Text(c, leaves[..i]) && bytes == TotalBytes(c, leaves[..i])
    {
      assert leaves[..i + 1][..i] == leaves[..i];
      text, bytes := text + (Line(c, leaves[i]) + "\n"), bytes + c[leaves[i]];
    }
    assert leaves[..|leaves|] == leaves;
    root := hash(text);
  }

  method BuildSegment(c: Catalogue, prefix: string, group: seq<string>, hash: string -> string) returns (s: Segment)
    requires group != [] && Distinct(group) && forall d :: d in group <==> d in Under(c, prefix)
    ensures s.prefix == prefix && Summarises(s, c, hash)
  {
    TextOrder();
    var leaves := Sort(group, TextLess);
    var root, bytes := HashLeaves(c, leaves, hash);
    s := Segment(prefix, root, |leaves|, bytes);
    assert Arranges(leaves, Under(c, prefix), TextLess);
  }

  function SumBytes(segments: seq<Segment>): int {
    if segments == [] then 0 else SumBytes(segments[..|segments| - 1]) + segments[|segments| - 1].bytes
  }

  method BuildSegments(c: Catalogue, groups: map<string, seq<string>>, prefixes: seq<string>, hash: string -> string)
    returns (segments: seq<Segment>, top: string, bytes: int)
    requires Grouped(groups, c.Keys, PrefixOf) && forall p :: p in prefixes <==> p in groups
    ensures |segments| == |prefixes| && Segmented(segments, prefixes, c, hash)
    ensures top == TopText(segments) && bytes == SumBytes(segments)
  {
    segments, top, bytes := [], "", 0;
    for i := 0 to |prefixes|
      invariant |segments| == i && Segmented(segments, prefixes, c, hash)
      invariant top == TopText(segments) && bytes == SumBytes(segments)
    {
      var p := prefixes[i];
      assert p in prefixes && p in groups;
      GroupIsUnder(c, groups, p);
      var s := BuildSegment(c, p, groups[p], hash);
      SegmentsStep(segments, s);
      SegmentedStep(segments, prefixes, c, hash, s);
      segments, top, bytes := segments + [s], top + TopLine(s), bytes + s.bytes;
    }
  }

  /** The first prefixes, each summarised. */
  ghost predicate Segmented(segments: seq<Segment>, prefixes: seq<string>, c: Catalogue, hash: string -> string) {
    && |segments| <= |prefixes|
    && forall j :: 0 <= j < |segments| ==> segments[j].prefix == prefixes[j] && Summarises(segments[j], c, hash)
  }

  lemma SegmentedStep(segments: seq<Segment>, prefixes: seq<string>, c: Catalogue, hash: string -> string, s: Segment)
    requires Segmented(segments, prefixes, c, hash) && |segments| < |prefixes|
    requires s.prefix == prefixes[|segments|] && Summarises(s, c, hash)
    ensures Segmented(segments + [s], prefixes, c, hash)
  {
  }

  lemma SegmentsStep(segments: seq<Segment>, s: Segment)
    ensures TopText(segments + [s]) == TopText(segments) + TopLine(s)
    ensures SumBytes(segments + [s]) == SumBytes(segments) + s.bytes
  {
    assert (segments + [s])[..|segments|] == segments;
  }

  /** A file below the store's directory, under the name it has there. */
  datatype File = File(name: string, bytes: nat)

  function NameOf(f: File): string {
    Lower(TrimSpace(f.name))
  }

  predicate NamesDiffer(files: seq<File>) {
    forall i, j :: 0 <= i < j < |files| ==> NameOf(files[i]) != NameOf(files[j])
  }

  /** The sizes of the files by their names. */
  ghost predicate Catalogues(c: Catalogue, files: seq<File>) {
    && Digests(c)
    && (forall f :: f in files ==> NameOf(f) in c && c[NameOf(f)] == f.bytes)
    && forall d :: d in c ==> exists f :: f in files && NameOf(f) == d
  }

  /** What the walk gathers; where names agree, the last file counts. */
  function Gathered(files: seq<File>): Catalogue {
    if files == [] then map[]
    else Gathered(files[..|files| - 1])[NameOf(files[|files| - 1]) := files[|files| - 1].bytes]
  }

  lemma {:induction false} GatheredNames(files: seq<File>, d: string)
    ensures d in Gathered(files) <==> exists f :: f in files && NameOf(f) == d
  {
    if files != [] {
      var earlier, last := files[..|files| - 1], files[|files| - 1];
      GatheredNames(earlier, d);
      assert files == earlier + [last];
    }
  }

  lemma {:induction false} GatheredSizes(files: seq<File>, f: File)
    requires NamesDiffer(files) && f in files
    ensures NameOf(f) in Gathered(files) && Gathered(files)[NameOf(f)] == f.bytes
  {
    var earlier, last := files[..|files| - 1], files[|files| - 1];
    assert files == earlier + [last];
    if f in earlier {
      var k :| 0 <= k < |earlier| && earlier[k] == f;
      assert NameOf(files[k]) != NameOf(last);
      GatheredSizes(earlier, f);
    }
  }

  lemma GatheredCatalogues(files: seq<File>)
    requires NamesDiffer(files) && forall f :: f in files ==> ValidDigest(NameOf(f))
    ensures Catalogues(Gathered(files), files)
  {
    forall d ensures d in Gathered(files) <==> exists f :: f in files && NameOf(f) == d {
      GatheredNames(files, d);
    }
    forall f | f in files ensures NameOf(f) in Gathered(files) && Gathered(files)[NameOf(f)] == f.bytes {
      GatheredSizes(files, f);
    }
  }

  method Catalogued(files: seq<File>) returns (c: Catalogue, ok: bool)
    ensures ok <==> forall f :: f in files ==> ValidDigest(NameOf(f))
    ensures ok ==> c == Gathered(files)
  {
    c := map[];
    for i := 0 to |files|
      invariant forall j :: 0 <= j < i ==> ValidDigest(NameOf(files[j]))
      invariant c == Gathered(files[..i])
    {
      assert files[..i + 1][..i] == files[..i] && files[i] in files;
      var name := NameOf(files[i]);
      if !ValidDigest(name) {
        return c, false;
      }
      c := c[name := files[i].bytes];
    }
    assert files[..|files|] == files;
    ok := true;
  }

  /** A walk that meets a file whose name, trimmed and in lower case, is no digest fails as a whole. */
  method BuildStore(files: seq<File>, hash: string -> string) returns (r: Option<Inventory>)
    ensures r.None? <==> exists f :: f in files && !ValidDigest(NameOf(f))
    ensures r.Some? && NamesDiffer(files) ==>
              exists c :: Catalogues(c, files) && Covers(r.value.segments, c, hash) && r.value.objects == |c|
  {
    var c, ok := Catalogued(files);
    if !ok {
      return None;
    }
    var inv := Build(c, hash);
    if NamesDiffer(files) {
      GatheredCatalogues(files);
    }
    r := Some(inv);
  }

  method Build(c: Catalogue, hash: string -> string) returns (inv: Inventory)
    ensures Covers(inv.segments, c, hash)
    ensures inv.objects == |c| && inv.bytes == SumBytes(inv.segments) && inv.merkleRoot == hash(TopText(inv.segments))
  {
    TextOrder();
    var groups := GroupBy(c.Keys, PrefixOf);
    var names := Listing(groups.Keys);
    var prefixes := Sort(names, TextLess);
    assert forall p :: p in prefixes <==> p in groups;
    var segments, top, bytes := BuildSegments(c, groups, prefixes, hash);
    EveryPrefix(c, groups, prefixes, segments);
    SegmentedCovers(segments, prefixes, c, hash);
    inv := Inventory(hash(top), |c|, bytes, segments);
  }

  lemma SegmentedCovers(segments: seq<Segment>, prefixes: seq<string>, c: Catalogue, hash: string -> string)
    requires |segments| == |prefixes| && Segmented(segments, prefixes, c, hash) && Ascending(prefixes, TextLess)
    requires forall d :: d in c ==> exists i :: 0 <= i < |segments| && segments[i].prefix == PrefixOf(d)
    ensures Covers(segments, c, hash)
  {
  }

  lemma GroupIsUnder(c: Catalogue, groups: map<string, seq<string>>, p: string)
    requires Grouped(groups, c.Keys, PrefixOf) && p in groups
    ensures groups[p] != [] && Distinct(groups[p]) && forall d :: d in groups[p] <==> d in Under(c, p)
  {
  }

  lemma EveryPrefix(c: Catalogue, groups: map<string, seq<string>>, prefixes: seq<string>, segments: seq<Segment>)
    requires Grouped(groups, c.Keys, PrefixOf) && forall p :: p in prefixes <==> p in groups
    requires |segments| == |prefixes| && forall j :: 0 <= j < |prefixes| ==> segments[j].prefix == prefixes[j]
    ensures forall d :: d in c ==> exists i :: 0 <= i < |segments| && segments[i].prefix == PrefixOf(d)
  {
    forall d | d in c ensures exists i :: 0 <= i < |segments| && segments[i].prefix == PrefixOf(d) {
      assert PrefixOf(d) in prefixes;
      var i :| 0 <= i < |prefixes| && prefixes[i] == PrefixOf(d);
      assert segments[i].prefix == PrefixOf(d);
    }
  }

  // --- Comparing ---------------------------------------------------------------------------

  /** The segment of a prefix; the last one wins. */
  function SegmentAt(segments: seq<Segment>, prefix: string): Option<Segment> {
    if segments == [] then None
    else
      var last := segments[|segments| - 1];
      if last.prefix == prefix then Some(last) else SegmentAt(segments[..|segments| - 1], prefix)
  }

  /** Prefixes that only one side has, or that both have with different summaries. */
  ghost function Divergent(a: seq<Segment>, b: seq<Segment>): set<string> {
    set s | s in a + b && SegmentAt(a, s.prefix) != SegmentAt(b, s.prefix) :: s.prefix
  }

  method IndexSegments(segments: seq<Segment>) returns (index: map<string, Segment>)
    ensures forall p :: (p in index) == SegmentAt(segments, p).Some?
    ensures forall p :: p in index ==> index[p] == SegmentAt(segments, p).value
  {
    index := map[];
    for i := 0 to |segments|
      invariant forall p :: (p in index) == SegmentAt(segments[..i], p).Some?
      invariant forall p :: p in index ==> index[p] == SegmentAt(segments[..i], p).value
    {
      assert segments[..i + 1][..i] == segments[..i];
      index := index[segments[i].prefix := segments[i]];
    }
    assert segments[..|segments|] == segments;
  }

  lemma {:induction false} SegmentAtMember(segments: seq<Segment>, prefix: string)
    ensures SegmentAt(segments, prefix).Some? <==> exists s :: s in segments && s.prefix == prefix
    ensures SegmentAt(segments, prefix).Some? ==>
              SegmentAt(segments, prefix).value in segments && SegmentAt(segments, prefix).value.prefix == prefix
  {
    if segments != [] {
      var last := segments[|segments| - 1];
      SegmentAtMember(segments[..|segments| - 1], prefix);
      assert segments == segments[..|segments| - 1] + [last];
      assert last in segments;
    }
  }

  method DivergentPrefixes(a: seq<Segment>, b: seq<Segment>) returns (out: seq<string>)
    ensures Arranges(out, Divergent(a, b), TextLess)
  {
    var am := IndexSegments(a);
    var bm := IndexSegments(b);
    var differing: set<string> := {};
    var keys := am.Keys + bm.Keys;
    var todo := keys;
    while todo != {}
      invariant todo <= keys
      invariant forall p :: p in differing <==> p in keys - todo && SegmentAt(a, p) != SegmentAt(b, p)
    {
      var k :| k in todo;
      todo := todo - {k};
      SegmentAtMember(a, k);
      SegmentAtMember(b, k);
      if k !in am || k !in bm || am[k].root != bm[k].root || am[k].count != bm[k].count || am[k].bytes != bm[k].bytes {
        differing := differing + {k};
      }
    }
    DifferingIsDivergent(a, b, keys, differing);
    TextOrder();
    var list := Listing(differing);
    out := Sort(list, TextLess);
  }

  lemma DifferingIsDivergent(a: seq<Segment>, b: seq<Segment>, keys: set<string>, differing: set<string>)
    requires forall p :: p in keys <==> SegmentAt(a, p).Some? || SegmentAt(b, p).Some?
    requires forall p :: p in differing <==> p in keys && SegmentAt(a, p) != SegmentAt(b, p)
    ensures differing == Divergent(a, b)
  {
    forall p ensures p in differing <==> p in Divergent(a, b) {
      SegmentAtMember(a, p);
      SegmentAtMember(b, p);
    }
  }
}
