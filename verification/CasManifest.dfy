/** The manifest of a synchronisation archive as text, and the length up to which a target reads it
    (internal/cassync/cassync.go). */
module CasManifest {
  import opened Prelude
  import opened Ordering
  import opened Inventory

  /** Objects by digest, as the store names its files. */
  type Objects = map<string, Bytes>

  datatype Item = Item(digest: string, bytes: nat)

  /** A target decodes no more than this many characters. */
  const MANIFEST_LIMIT := 0x80_0000

  // --- The text -------------------------------------------------------------------------

  function ItemText(i: Item): string {
    "{\"digest\":\"" + i.digest + "\",\"bytes\":" + Decimal(i.bytes) + "}"
  }

  function Joined(items: seq<Item>): string {
    if items == [] then ""
    else if |items| == 1 then ItemText(items[0])
    else Joined(items[..|items| - 1]) + "," + ItemText(items[|items| - 1])
  }

  /** A source that packs nothing never allocates its list. */
  function ListText(items: seq<Item>): string {
    if items == [] then "null" else "[" + Joined(items) + "]"
  }

  function ManifestText(items: seq<Item>): string {
    "{\"version\":1,\"objects\":" + ListText(items) + "}"
  }

  ghost function Named(items: seq<Item>): set<string> {
    set i | i in items :: i.digest
  }

  ghost predicate InOrder(items: seq<Item>) {
    forall i, j :: 0 <= i < j < |items| ==> TextLess(items[i].digest, items[j].digest)
  }

  /** The manifest of these objects: each once, in the order of the digests. */
  ghost predicate Lists(items: seq<Item>, objects: Objects) {
    && InOrder(items)
    && Named(items) == objects.Keys
    && forall i :: i in items ==> i.digest in objects && i.bytes == |objects[i.digest]|
  }

  // --- Its length ---------------------------------------------------------------------------

  /** What one object adds, with its comma. */
  function Share(content: Bytes): nat {
    87 + |Decimal(|content|)|
  }

  ghost function Weight(objects: Objects): nat
    decreases |objects|
  {
    if objects == map[] then 0
    else
      var d :| d in objects;
      Share(objects[d]) + Weight(objects - {d})
  }

  /** The length of the manifest, whatever order the objects were packed in. */
  ghost function ManifestSize(objects: Objects): nat {
    if objects == map[] then 28 else 25 + Weight(objects)
  }

  ghost predicate Fits(objects: Objects) {
    ManifestSize(objects) <= MANIFEST_LIMIT
  }

  lemma {:induction false} WeightStep(objects: Objects, d: string)
    requires d in objects
    ensures Weight(objects) == Share(objects[d]) + Weight(objects - {d})
    decreases |objects|
  {
    var e :| e in objects && Weight(objects) == Share(objects[e]) + Weight(objects - {e});
    if e != d {
      WeightStep(objects - {e}, d);
      WeightStep(objects - {d}, e);
      assert objects - {e} - {d} == objects - {d} - {e};
    }
  }

  /** Part of a store has no longer a manifest than the whole. */
  lemma {:induction false} WeightMonotone(part: Objects, whole: Objects)
    requires forall d :: d in part ==> d in whole && whole[d] == part[d]
    ensures Weight(part) <= Weight(whole) && (Fits(whole) ==> Fits(part))
    decreases |part|
  {
    if part != map[] {
      var d :| d in part;
      WeightStep(part, d);
      WeightStep(whole, d);
      WeightMonotone(part - {d}, whole - {d});
    }
  }

  lemma {:induction false} DecimalDigits(n: nat, k: nat, p: nat)
    requires p == Power(k) && n < 10 * p
    ensures |Decimal(n)| <= k + 1
    decreases k
  {
    if n >= 10 {
      assert k > 0;
      DecimalDigits(n / 10, k - 1, Power(k - 1));
    }
  }

  function Power(k: nat): nat {
    if k == 0 then 1 else 10 * Power(k - 1)
  }

  lemma EighteenPlaces()
    ensures Power(18) == 1_000_000_000_000_000_000
  {
    assert Power(6) == 1_000_000;
    assert Power(12) == 1_000_000_000_000;
  }

  /** No file is longer than a signed 64-bit size. */
  const MAX_SIZE := 0x7fff_ffff_ffff_ffff

  /** Every object takes between 88 and 106 characters. */
  lemma {:induction false} WeightBounds(objects: Objects)
    ensures 88 * |objects| <= Weight(objects)
    ensures (forall d :: d in objects ==> |objects[d]| <= MAX_SIZE) ==> Weight(objects) <= 106 * |objects|
    decreases |objects|
  {
    if objects != map[] {
      var d :| d in objects;
      WeightStep(objects, d);
      WeightBounds(objects - {d});
      assert |objects - {d}| == |objects| - 1;
      if |objects[d]| <= MAX_SIZE {
        EighteenPlaces();
        DecimalDigits(|objects[d]|, 18, Power(18));
      }
    }
  }

  lemma SmallFits(objects: Objects)
    requires |objects| <= 79_000 && forall d :: d in objects ==> |objects[d]| <= MAX_SIZE
    ensures Fits(objects)
  {
    WeightBounds(objects);
  }

  lemma LargeDoesNotFit(objects: Objects)
    requires 95_326 <= |objects|
    ensures !Fits(objects)
  {
    WeightBounds(objects);
  }

  // --- Text and length agree -----------------------------------------------------------------

  lemma ItemLength(i: Item)
    requires |i.digest| == DIGEST_LENGTH
    ensures |ItemText(i)| == 86 + |Decimal(i.bytes)|
  {
  }

  lemma LastDiffers(items: seq<Item>, i: Item)
    requires items != [] && i in items[..|items| - 1] && InOrder(items)
    ensures i.digest != items[|items| - 1].digest
  {
    var k :| 0 <= k < |items| - 1 && items[k] == i;
    assert TextLess(items[k].digest, items[|items| - 1].digest);
    TextConnected(i.digest, i.digest);
  }

  lemma NamedSplit(front: seq<Item>, last: Item)
    ensures Named(front + [last]) == Named(front) + {last.digest}
  {
    assert forall i :: i in front + [last] <==> i in front || i == last;
  }

  lemma FrontNamed(items: seq<Item>)
    requires items != [] && InOrder(items)
    ensures var n := |items| - 1; Named(items[..n]) == Named(items) - {items[n].digest} && InOrder(items[..n])
  {
    var n := |items| - 1;
    var front, last := items[..n], items[n];
    assert items == front + [last];
    NamedSplit(front, last);
    forall i | i in front ensures i.digest != last.digest {
      LastDiffers(items, i);
    }
  }

  /** Without its last item a manifest lists the other objects. */
  lemma FrontLists(items: seq<Item>, objects: Objects)
    requires items != [] && Lists(items, objects)
    ensures var n := |items| - 1; Lists(items[..n], objects - {items[n].digest})
  {
    var n := |items| - 1;
    FrontNamed(items);
    var rest := objects - {items[n].digest};
    assert Named(items[..n]) == rest.Keys;
    forall i | i in items[..n] ensures i.digest in rest && i.bytes == |rest[i.digest]| {
      assert i in items && i.digest in Named(items[..n]);
    }
  }

  lemma {:induction false} JoinedLength(items: seq<Item>, objects: Objects)
    requires items != [] && Lists(items, objects) && forall d :: d in objects ==> |d| == DIGEST_LENGTH
    ensures |Joined(items)| + 1 == Weight(objects)
  {
    var n := |items| - 1;
    var rest := objects - {items[n].digest};
    WeightStep(objects, items[n].digest);
    ItemLength(items[n]);
    FrontLists(items, objects);
    if n == 0 {
      assert rest == map[];
    } else {
      JoinedLength(items[..n], rest);
    }
  }

  /** The manifest's length depends on the packed objects alone. */
  lemma ManifestLength(items: seq<Item>, objects: Objects)
    requires Lists(items, objects) && forall d :: d in objects ==> |d| == DIGEST_LENGTH
    ensures |ManifestText(items)| == ManifestSize(objects)
  {
    if items == [] {
      assert objects == map[];
    } else {
      assert items[0] in items && items[0].digest in objects;
      JoinedLength(items, objects);
    }
  }
}
