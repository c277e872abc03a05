/** Comparing Merkle summaries finds exactly the prefixes under which two stores differ. */
module InventoryAgreement {
  import opened Prelude
  import opened Ordering
  import opened Inventory

  lemma {:induction false} DecimalPlain(n: nat)
    ensures '\n' !in Decimal(n)
  {
    if n >= 10 {
      DecimalPlain(n / 10);
    }
  }

  lemma DigitInjective(i: nat, j: nat)
    requires i < 10 && j < 10 && DIGITS[i] == DIGITS[j]
    ensures i == j
  {
  }

  lemma {:induction false} DecimalInjective(m: nat, n: nat)
    requires Decimal(m) == Decimal(n)
    ensures m == n
  {
    if m < 10 || n < 10 {
      assert |Decimal(m)| == 1 <==> m < 10;
      assert |Decimal(n)| == 1 <==> n < 10;
      DigitInjective(m, n);
    } else {
      var s, t := Decimal(m), Decimal(n);
      assert s[..|s| - 1] == Decimal(m / 10) && t[..|t| - 1] == Decimal(n / 10);
      assert s[|s| - 1] == DIGITS[m % 10] && t[|t| - 1] == DIGITS[n % 10];
      DecimalInjective(m / 10, n / 10);
      DigitInjective(m % 10, n % 10);
    }
  }

  /** A digest line determines its digest and size, and contains no newline. */
  lemma LineInjective(a: Catalogue, b: Catalogue, d: string, e: string)
    requires d in a && e in b && ValidDigest(d) && ValidDigest(e)
    ensures '\n' !in Line(a, d)
    ensures Line(a, d) == Line(b, e) ==> d == e && a[d] == b[e]
  {
    DecimalPlain(a[d]);
    var s, t := Line(a, d), Line(b, e);
    if s == t {
      assert s[..DIGEST_LENGTH] == d && t[..DIGEST_LENGTH] == e;
      assert s[DIGEST_LENGTH + 1..] == Decimal(a[d]) && t[DIGEST_LENGTH + 1..] == Decimal(b[e]);
      DecimalInjective(a[d], b[e]);
    }
  }

  predicate Ended(s: string) {
    s == "" || s[|s| - 1] == '\n'
  }

  /** Complete lines followed by an unfinished one can be taken apart in one way only. */
  lemma LastLineUnique(x: string, l: string, y: string, m: string)
    requires Ended(x) && Ended(y) && '\n' !in l && '\n' !in m && x + l == y + m
    ensures x == y && l == m
  {
    assert (x + l)[..|x|] == x && (y + m)[..|y|] == y;
    assert (x + l)[|x|..] == l && (y + m)[|y|..] == m;
  }

  /** Equal texts end in equal lines after equal texts. */
  lemma TextStep(a: Catalogue, la: seq<string>, d: string, b: Catalogue, lb: seq<string>, e: string)
    requires ValidDigest(d) && ValidDigest(e) && d in a && e in b
    requires (forall x :: x in la ==> x in a) && (forall x :: x in lb ==> x in b)
    requires Text(a, la) + (Line(a, d) + "\n") == Text(b, lb) + (Line(b, e) + "\n")
    ensures Text(a, la) == Text(b, lb) && d == e && a[d] == b[e]
  {
    var x, y := Text(a, la), Text(b, lb);
    LineInjective(a, b, d, e);
    LineInjective(b, a, e, d);
    assert (x + (Line(a, d) + "\n"))[..|x| + |Line(a, d)|] == x + Line(a, d);
    assert (y + (Line(b, e) + "\n"))[..|y| + |Line(b, e)|] == y + Line(b, e);
    LastLineUnique(x, Line(a, d), y, Line(b, e));
  }

  lemma {:induction false} TextInjective(a: Catalogue, la: seq<string>, b: Catalogue, lb: seq<string>)
    requires Digests(a) && Digests(b)
    requires (forall d :: d in la ==> d in a) && (forall d :: d in lb ==> d in b)
    requires Text(a, la) == Text(b, lb)
    ensures la == lb && forall d :: d in la ==> a[d] == b[d]
    decreases |la|
  {
    if la != [] && lb != [] {
      var d, e := la[|la| - 1], lb[|lb| - 1];
      var la', lb' := la[..|la| - 1], lb[..|lb| - 1];
      assert la == la' + [d] && lb == lb' + [e];
      assert d in la && e in lb;
      TextStep(a, la', d, b, lb', e);
      TextInjective(a, la', b, lb');
    }
  }

  lemma {:induction false} TextSame(a: Catalogue, b: Catalogue, leaves: seq<string>)
    requires forall d :: d in leaves ==> d in a && d in b && a[d] == b[d]
    ensures Text(a, leaves) == Text(b, leaves) && TotalBytes(a, leaves) == TotalBytes(b, leaves)
  {
    if leaves != [] {
      TextSame(a, b, leaves[..|leaves| - 1]);
    }
  }

  /** Both stores hold the same objects, with the same sizes, under a prefix. */
  ghost predicate SameUnder(a: Catalogue, b: Catalogue, prefix: string) {
    Under(a, prefix) == Under(b, prefix) && forall d :: d in Under(a, prefix) ==> a[d] == b[d]
  }

  lemma LeavesEqualIffSame(a: Catalogue, la: seq<string>, b: Catalogue, lb: seq<string>, prefix: string)
    requires Digests(a) && Digests(b)
    requires Arranges(la, Under(a, prefix), TextLess) && (forall d :: d in la ==> d in a)
    requires Arranges(lb, Under(b, prefix), TextLess) && (forall d :: d in lb ==> d in b)
    ensures Text(a, la) == Text(b, lb) <==> SameUnder(a, b, prefix)
    ensures SameUnder(a, b, prefix) ==> |la| == |lb| && TotalBytes(a, la) == TotalBytes(b, lb)
  {
    if SameUnder(a, b, prefix) {
      TextOrder();
      SortedUnique(la, lb, Under(a, prefix), TextLess);
      TextSame(a, b, la);
    }
    if Text(a, la) == Text(b, lb) {
      TextInjective(a, la, b, lb);
    }
  }

  lemma SegmentsEqualIffSame(s: Segment, t: Segment, a: Catalogue, b: Catalogue, hash: string -> string)
    requires Digest(hash) && Digests(a) && Digests(b)
    requires s.prefix == t.prefix && Summarises(s, a, hash) && Summarises(t, b, hash)
    ensures s == t <==> SameUnder(a, b, s.prefix)
  {
    var la: seq<string> :|
      && Arranges(la, Under(a, s.prefix), TextLess) && (forall d :: d in la ==> d in a)
      && la != [] && s.root == hash(Text(a, la)) && s.count == |la| && s.bytes == TotalBytes(a, la);
    var lb: seq<string> :|
      && Arranges(lb, Under(b, t.prefix), TextLess) && (forall d :: d in lb ==> d in b)
      && lb != [] && t.root == hash(Text(b, lb)) && t.count == |lb| && t.bytes == TotalBytes(b, lb);
    LeavesEqualIffSame(a, la, b, lb, s.prefix);
    DigestFold(hash, Text(a, la), Text(b, lb));
  }

  lemma SegmentPresence(segments: seq<Segment>, c: Catalogue, hash: string -> string, prefix: string)
    requires Covers(segments, c, hash)
    ensures SegmentAt(segments, prefix).Some? <==> Under(c, prefix) != {}
    ensures SegmentAt(segments, prefix).Some? ==>
              Summarises(SegmentAt(segments, prefix).value, c, hash) && SegmentAt(segments, prefix).value.prefix == prefix
  {
    SegmentAtMember(segments, prefix);
    if SegmentAt(segments, prefix).Some? {
      var s := SegmentAt(segments, prefix).value;
      var i :| 0 <= i < |segments| && segments[i] == s;
      assert Summarises(segments[i], c, hash);
      var leaves: seq<string> :| Arranges(leaves, Under(c, s.prefix), TextLess) && leaves != [];
      assert leaves[0] in leaves;
    } else {
      forall d | d in c ensures PrefixOf(d) != prefix {
        var i :| 0 <= i < |segments| && segments[i].prefix == PrefixOf(d);
        assert segments[i] in segments;
      }
    }
  }

  /** A prefix is reported exactly when the stores differ under it. */
  lemma DivergenceIsExact(sa: seq<Segment>, sb: seq<Segment>, a: Catalogue, b: Catalogue, hash: string -> string, prefix: string)
    requires Digest(hash) && Digests(a) && Digests(b) && Covers(sa, a, hash) && Covers(sb, b, hash)
    ensures prefix in Divergent(sa, sb) <==> !SameUnder(a, b, prefix)
  {
    SegmentPresence(sa, a, hash, prefix);
    SegmentPresence(sb, b, hash, prefix);
    var s, t := SegmentAt(sa, prefix), SegmentAt(sb, prefix);
    if s.Some? && t.Some? {
      SegmentsEqualIffSame(s.value, t.value, a, b, hash);
      assert s.value in sa + sb by { SegmentAtMember(sa, prefix); }
    } else if s.Some? {
      assert s.value in sa + sb by { SegmentAtMember(sa, prefix); }
    } else if t.Some? {
      assert t.value in sa + sb by { SegmentAtMember(sb, prefix); }
    }
  }
}
