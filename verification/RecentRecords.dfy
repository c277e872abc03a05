/** The newest matching records of a verified ledger, kept in a ring while it is scanned
    (internal/audit/recent.go). */
module RecentRecords {
  import opened Prelude
  import opened JsonText
  import opened Ledger

  const MAX_RECENT := 4096

  predicate Wanted(r: Record, action: Text) {
    action == [] || r.body.action == action
  }

  function Matching(rs: seq<Record>, action: Text): seq<Record> {
    if rs == [] then []
    else
      var last := rs[|rs| - 1];
      Matching(rs[..|rs| - 1], action) + if Wanted(last, action) then [last] else []
  }

  /** The last `n` of `xs`, newest first. */
  function Newest(xs: seq<Record>, n: nat): (r: seq<Record>)
    ensures |r| == Min(n, |xs|)
    ensures forall i :: 0 <= i < |r| ==> r[i] == xs[|xs| - 1 - i]
  {
    if n == 0 || xs == [] then [] else [xs[|xs| - 1]] + Newest(xs[..|xs| - 1], n - 1)
  }

  /** The ring holds the last records of `m`: record number `k` is in slot `k % limit`. */
  ghost predicate Holds(ring: seq<Option<Record>>, m: seq<Record>, count: nat, next: nat) {
    var limit := |ring|;
    && 0 < limit && count == Min(|m|, limit) && next == |m| % limit
    && forall k :: |m| - count <= k < |m| ==> 0 <= k && ring[k % limit] == Some(m[k])
  }

  lemma NextSlot(n: nat, limit: nat)
    requires 0 < limit
    ensures (n + 1) % limit == (n % limit + 1) % limit
  {
    var q, t := n / limit, n % limit;
    if t + 1 < limit {
      DivUnique(n + 1, limit, q, t + 1);
      DivUnique(t + 1, limit, 0, t + 1);
    } else {
      DivUnique(n + 1, limit, q + 1, 0);
      DivUnique(limit, limit, 1, 0);
    }
  }

  /** Fewer than `limit` steps apart, two numbers are in different slots. */
  lemma SlotsDiffer(a: nat, b: nat, limit: nat)
    requires 0 < limit && a < b < a + limit
    ensures a % limit != b % limit
  {
    var q, t := a / limit, a % limit;
    if t + (b - a) < limit {
      DivUnique(b, limit, q, t + (b - a));
    } else {
      DivUnique(b, limit, q + 1, t + (b - a) - limit);
    }
  }

  lemma PushKeeps(ring: seq<Option<Record>>, m: seq<Record>, count: nat, next: nat, r: Record)
    requires Holds(ring, m, count, next)
    ensures next < |ring|
    ensures Holds(ring[next := Some(r)], m + [r], Min(count + 1, |ring|), (next + 1) % |ring|)
  {
    var limit, now, m' := |ring|, ring[next := Some(r)], m + [r];
    NextSlot(|m|, limit);
    forall k | |m'| - Min(count + 1, limit) <= k < |m'| ensures 0 <= k && now[k % limit] == Some(m'[k]) {
      if k < |m| {
        SlotsDiffer(k, |m|, limit);
      }
    }
  }

  /** One record visited by the scan. */
  method Visit(ring: array<Option<Record>>, count: nat, next: nat, r: Record, action: Text, ghost m: seq<Record>)
    returns (count': nat, next': nat)
    requires Holds(ring[..], m, count, next)
    modifies ring
    ensures Holds(ring[..], m + if Wanted(r, action) then [r] else [], count', next')
  {
    count', next' := count, next;
    if action != [] && r.body.action != action {
      assert m + [] == m;
      return;
    }
    PushKeeps(ring[..], m, count, next, r);
    ring[next] := Some(r);
    next' := (next + 1) % ring.Length;
    if count < ring.Length {
      count' := count + 1;
    }
  }

  lemma MatchingStep(lines: seq<Line>, l: Line, action: Text)
    ensures Matching(Records(lines + [l]), action)
         == Matching(Records(lines), action) + if l.Entry? && Wanted(l.record, action) then [l.record] else []
  {
    RecordsStep(lines, l);
    if l.Entry? {
      assert (Records(lines) + [l.record])[..|Records(lines)|] == Records(lines);
    } else {
      assert Records(lines) + [] == Records(lines);
    }
  }

  /** The verified scan that fills the ring. */
  method Collect(lines: seq<Line>, hash: Hash, action: Text, ring: array<Option<Record>>)
    returns (r: Result<nat, Error>, next: nat)
    requires 0 < ring.Length
    modifies ring
    ensures r.Success? <==> Sound(lines, hash)
    ensures r.Success? ==> Holds(ring[..], Matching(Records(lines), action), r.value, next)
  {
    var c := Cursor("", None, 1);
    var count := 0;
    next := 0;
    for i := 0 to |lines|
      invariant Sound(lines[..i], hash) && At(c, Records(lines[..i]))
      invariant Holds(ring[..], Matching(Records(lines[..i]), action), count, next)
    {
      assert lines[..i + 1] == lines[..i] + [lines[i]];
      var v;
      v, c := CheckNext(lines, i, c, hash);
      if v.Failure? {
        return Failure(v.error), next;
      }
      MatchingStep(lines[..i], lines[i], action);
      ghost var m := Matching(Records(lines[..i]), action);
      if v.value.Some? {
        count, next := Visit(ring, count, next, v.value.value, action, m);
      } else {
        assert m + [] == m;
      }
    }
    assert lines[..|lines|] == lines;
    r := Success(count);
  }

  method CheckNext(lines: seq<Line>, i: nat, c: Cursor, hash: Hash) returns (v: Result<Option<Record>, Error>, c': Cursor)
    requires i < |lines| && Sound(lines[..i], hash) && At(c, Records(lines[..i]))
    ensures v.Failure? ==> !Sound(lines, hash)
    ensures v.Success? ==> Sound(lines[..i + 1], hash) && At(c', Records(lines[..i + 1]))
    ensures v.Success? ==> v.value == if lines[i].Entry? then Some(lines[i].record) else None
  {
    assert lines[..i + 1] == lines[..i] + [lines[i]];
    SoundStep(lines[..i], lines[i], hash);
    RecordsStep(lines[..i], lines[i]);
    v, c' := CheckLine(lines[i], c, hash, Records(lines[..i]));
    if v.Failure? {
      UnsoundPrefix(lines, i + 1, hash);
    }
  }

  /** Where the ring keeps the `i`-th newest of `total` records. */
  lemma NewestSlot(total: nat, limit: nat, i: nat)
    requires 0 < limit && i < Min(total, limit)
    ensures var next := total % limit;
            var start := if next - 1 < 0 then next - 1 + limit else next - 1;
            (total - 1 - i) % limit == if start - i < 0 then start - i + limit else start - i
  {
    var q, next := total / limit, total % limit;
    var start := if next - 1 < 0 then next - 1 + limit else next - 1;
    if next == 0 {
      DivUnique(total - 1 - i, limit, q - 1, limit - 1 - i);
    } else if i <= next - 1 {
      DivUnique(total - 1 - i, limit, q, next - 1 - i);
    } else {
      DivUnique(total - 1 - i, limit, q - 1, next - 1 - i + limit);
    }
  }

  /** Reads the ring backwards from the newest slot. */
  method ReadBack(ring: array<Option<Record>>, count: nat, next: nat, ghost m: seq<Record>) returns (out: seq<Record>)
    requires Holds(ring[..], m, count, next) && 0 < count
    ensures out == Newest(m, ring.Length)
  {
    out := [];
    var limit := ring.Length;
    var start := next - 1;
    if start < 0 {
      start := start + limit;
    }
    for i := 0 to count
      invariant |out| == i
      invariant forall j :: 0 <= j < i ==> out[j] == m[|m| - 1 - j]
    {
      NewestSlot(|m|, limit, i);
      var idx := start - i;
      if idx < 0 {
        idx := idx + limit;
      }
      assert ring[..][idx] == Some(m[|m| - 1 - i]);
      out := out + [ring[idx].value];
    }
  }

  /** The last `min(limit, 4096)` matching records of a ledger that verifies, newest first; an error when it does not. */
  method Recent(file: File, limit: int, action: Text, hash: Hash) returns (r: Result<seq<Record>, Error>)
    ensures limit <= 0 ==> r == Success([])
    ensures 0 < limit && file.None? ==> r == Failure(NoLedger)
    ensures 0 < limit && file.Some? ==> (r.Success? <==> Sound(file.value, hash))
    ensures 0 < limit && file.Some? && r.Success? ==>
              r.value == Newest(Matching(Records(file.value), Trim(action)), Min(limit, MAX_RECENT))
  {
    if limit <= 0 {
      return Success([]);
    }
    if file.None? {
      return Failure(NoLedger);
    }
    var ring := new Option<Record>[Min(limit, MAX_RECENT)](_ => None);
    var count, next := Collect(file.value, hash, Trim(action), ring);
    if count.Failure? {
      return Failure(count.error);
    }
    if count.value == 0 {
      return Success([]);
    }
    var out := ReadBack(ring, count.value, next, Matching(Records(file.value), Trim(action)));
    r := Success(out);
  }

  /** Only records of the ledger, and only those of the action asked for; with no action, all. */
  lemma {:induction false} MatchingIsFilter(rs: seq<Record>, action: Text)
    ensures forall r :: r in Matching(rs, action) <==> r in rs && (action == [] || r.body.action == action)
  {
    if rs != [] {
      MatchingIsFilter(rs[..|rs| - 1], action);
      assert rs == rs[..|rs| - 1] + [rs[|rs| - 1]];
    }
  }

  /** Each as often as written and in the order written. */
  lemma {:induction false} MatchingKeepsOrder(before: seq<Record>, r: Record, after: seq<Record>, action: Text)
    ensures Matching(before + [r] + after, action)
         == Matching(before, action) + (if action == [] || r.body.action == action then [r] else []) + Matching(after, action)
    decreases |after|
  {
    var all := before + [r] + after;
    if after == [] {
      assert all[..|all| - 1] == before;
    } else {
      var n := |after| - 1;
      MatchingKeepsOrder(before, r, after[..n], action);
      assert all[..|all| - 1] == before + [r] + after[..n] && all[|all| - 1] == after[n];
    }
  }

  /** With no action given, the last records of the ledger, newest first. */
  method RecentOfAll(file: File, limit: int, hash: Hash) returns (r: Result<seq<Record>, Error>)
    ensures 0 < limit && file.Some? && Sound(file.value, hash) ==>
              var rs := Records(file.value);
              && r.Success? && |r.value| == Min(Min(limit, 4096), |rs|)
              && forall i :: 0 <= i < |r.value| ==> r.value[i] == rs[|rs| - 1 - i]
  {
    r := Recent(file, limit, [], hash);
    if file.Some? {
      MatchingAll(Records(file.value));
    }
  }

  lemma {:induction false} MatchingAll(rs: seq<Record>)
    ensures Matching(rs, Trim([])) == rs
  {
    if rs != [] {
      MatchingAll(rs[..|rs| - 1]);
      assert rs == rs[..|rs| - 1] + [rs[|rs| - 1]];
    }
  }
}
