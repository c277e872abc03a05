/** The tamper-evident audit ledger and its signed checkpoints
    (internal/audit/ledger.go, internal/audit/checkpoint.go).

    A `Body` stands for the JSON text that is hashed; two bodies are equal when their texts
    are. The time is kept as its RFC 3339 text. */
module Ledger {
  import opened Prelude
  import opened JsonText
  import Float64

  /** The scanner gives up on a line that does not fit its buffer with its line end. */
  const LINE_LIMIT := 8388608

  datatype Body = Body(
    seqNo: nat,
    time: string,
    action: Text,
    target: Text,
    status: Text,
    detail: Text,
    fields: seq<Member>,
    prevHash: string)

  datatype Record = Record(body: Body, hash: string)

  /** A line of the ledger file, with the record that decoding it yields. */
  datatype Line = Blank(length: nat) | Garbage(length: nat) | Entry(record: Record, length: nat)

  type File = Option<seq<Line>>

  type Hash = Body -> string

  datatype Error = LineTooLong | Malformed | SequenceMismatch | PrevHashMismatch | HashMismatch | MissingFields | NoLedger | Empty

  // --- What verification checks -----------------------------------------------------------

  function Records(lines: seq<Line>): seq<Record> {
    if lines == [] then []
    else
      var last := lines[|lines| - 1];
      Records(lines[..|lines| - 1]) + if last.Entry? then [last.record] else []
  }

  predicate Linked(r: Record, seqNo: nat, prev: string, hash: Hash) {
    r.body.seqNo == seqNo && r.body.prevHash == prev && EqualFold(hash(r.body), r.hash)
  }

  function PrevHash(rs: seq<Record>, i: nat): string
    requires i <= |rs|
  {
    if i == 0 then "" else rs[i - 1].hash
  }

  /** Numbered from 1, each record naming the stored hash of the one before. */
  predicate Chain(rs: seq<Record>, hash: Hash) {
    forall i :: 0 <= i < |rs| ==> LinkedAt(rs, i, hash)
  }

  predicate Legible(l: Line) {
    l.length < LINE_LIMIT && !l.Garbage?
  }

  /** A line that extends a verified file. */
  predicate Extends(rs: seq<Record>, l: Line, hash: Hash) {
    Legible(l) && (l.Entry? ==> Linked(l.record, |rs| + 1, PrevHash(rs, |rs|), hash))
  }

  /** The files that verify. */
  predicate Sound(lines: seq<Line>, hash: Hash) {
    lines == []
    || (Sound(lines[..|lines| - 1], hash) && Extends(Records(lines[..|lines| - 1]), lines[|lines| - 1], hash))
  }

  lemma RecordsStep(lines: seq<Line>, l: Line)
    ensures Records(lines + [l]) == Records(lines) + if l.Entry? then [l.record] else []
  {
    assert (lines + [l])[..|lines|] == lines;
  }

  lemma SoundStep(lines: seq<Line>, l: Line, hash: Hash)
    ensures Sound(lines + [l], hash) <==> Sound(lines, hash) && Extends(Records(lines), l, hash)
  {
    assert (lines + [l])[..|lines|] == lines;
  }

  lemma {:induction false} UnsoundPrefix(lines: seq<Line>, n: nat, hash: Hash)
    requires n <= |lines| && !Sound(lines[..n], hash)
    ensures !Sound(lines, hash)
    decreases |lines| - n
  {
    if n == |lines| {
      assert lines[..n] == lines;
    } else {
      SoundStep(lines[..n], lines[n], hash);
      assert lines[..n + 1] == lines[..n] + [lines[n]];
      UnsoundPrefix(lines, n + 1, hash);
    }
  }

  predicate LinkedAt(rs: seq<Record>, i: nat, hash: Hash)
    requires i < |rs|
  {
    Linked(rs[i], i + 1, PrevHash(rs, i), hash)
  }

  lemma LinkedAtGrown(rs: seq<Record>, r: Record, i: nat, hash: Hash)
    requires i < |rs|
    ensures LinkedAt(rs + [r], i, hash) <==> LinkedAt(rs, i, hash)
  {
  }

  lemma ChainStep(rs: seq<Record>, r: Record, hash: Hash)
    ensures Chain(rs + [r], hash) <==> Chain(rs, hash) && Linked(r, |rs| + 1, PrevHash(rs, |rs|), hash)
  {
    var now := rs + [r];
    assert LinkedAt(now, |rs|, hash) <==> Linked(r, |rs| + 1, PrevHash(rs, |rs|), hash);
    forall i | 0 <= i < |rs| ensures LinkedAt(now, i, hash) <==> LinkedAt(rs, i, hash) {
      LinkedAtGrown(rs, r, i, hash);
    }
    if Chain(now, hash) {
      assert forall i :: 0 <= i < |now| ==> LinkedAt(now, i, hash);
      assert forall i :: 0 <= i < |rs| ==> LinkedAt(rs, i, hash);
    }
  }

  /** Verification accepts exactly the legible files whose records form one chain. */
  lemma {:induction false} SoundIffChained(lines: seq<Line>, hash: Hash)
    ensures Sound(lines, hash) <==> (forall l :: l in lines ==> Legible(l)) && Chain(Records(lines), hash)
  {
    if lines != [] {
      var front, last := lines[..|lines| - 1], lines[|lines| - 1];
      SoundIffChained(front, hash);
      assert lines == front + [last];
      RecordsStep(front, last);
      assert Records(front) + [] == Records(front);
      if last.Entry? {
        ChainStep(Records(front), last.record, hash);
      }
    }
  }

  // --- Scanning ---------------------------------------------------------------------------------

  /** The state of a scan: last stored hash, head, next number. */
  datatype Cursor = Cursor(prev: string, head: Option<Record>, wantSeq: nat)

  ghost predicate At(c: Cursor, rs: seq<Record>) {
    && c.wantSeq == |rs| + 1 && c.prev == PrevHash(rs, |rs|)
    && c.head == if rs == [] then None else Some(rs[|rs| - 1])
  }

  /** Validates one line; the record to visit, if it has one. */
  method CheckLine(l: Line, c: Cursor, hash: Hash, ghost rs: seq<Record>) returns (r: Result<Option<Record>, Error>, c': Cursor)
    requires At(c, rs)
    ensures r.Success? <==> Extends(rs, l, hash)
    ensures r.Success? ==> r.value == if l.Entry? then Some(l.record) else None
    ensures r.Success? ==> At(c', rs + if l.Entry? then [l.record] else [])
  {
    c' := c;
    if l.length >= LINE_LIMIT {
      return Failure(LineTooLong), c;
    }
    if l.Blank? {
      assert rs + [] == rs;
      return Success(None), c;
    }
    if l.Garbage? {
      return Failure(Malformed), c;
    }
    var rec := l.record;
    if rec.body.seqNo != c.wantSeq {
      return Failure(SequenceMismatch), c;
    }
    if rec.body.prevHash != c.prev {
      return Failure(PrevHashMismatch), c;
    }
    if !EqualFold(hash(rec.body), rec.hash) {
      return Failure(HashMismatch), c;
    }
    r, c' := Success(Some(rec)), Cursor(rec.hash, Some(rec), c.wantSeq + 1);
  }

  method Scan(lines: seq<Line>, hash: Hash) returns (r: Result<nat, Error>, head: Option<Record>)
    ensures r.Success? <==> Sound(lines, hash)
    ensures r.Success? ==> r.value == |Records(lines)|
    ensures r.Success? ==> head == if Records(lines) == [] then None else Some(Records(lines)[|Records(lines)| - 1])
  {
    var c := Cursor("", None, 1);
    var count := 0;
    for i := 0 to |lines|
      invariant Sound(lines[..i], hash)
      invariant At(c, Records(lines[..i])) && count == |Records(lines[..i])|
    {
      assert lines[..i + 1] == lines[..i] + [lines[i]];
      SoundStep(lines[..i], lines[i], hash);
      RecordsStep(lines[..i], lines[i]);
      var v;
      v, c := CheckLine(lines[i], c, hash, Records(lines[..i]));
      if v.Failure? {
        UnsoundPrefix(lines, i + 1, hash);
        return Failure(v.error), None;
      }
      if v.value.Some? {
        count := count + 1;
      }
    }
    assert lines[..|lines|] == lines;
    return Success(count), c.head;
  }

  // --- Appending ------------------------------------------------------------------------------------

  datatype Request = Request(time: string, action: Text, target: Text, status: Text, detail: Text, fields: seq<Member>)

  /** A body written and read back. */
  function ReloadBody(b: Body): Body {
    b.(action := ReloadText(b.action), target := ReloadText(b.target), status := ReloadText(b.status),
       detail := ReloadText(b.detail), fields := ReloadMembers(b.fields))
  }

  /** A string member with its key and comma, absent when empty. */
  function Optional(key: nat, t: Text): nat {
    if t == [] then 0 else key + TextSize(t)
  }

  /** The length of the line a record is written as: members in their declared order, empty ones left out
      but for the sequence number, the time, the action, the status and the hash. */
  function LineSize(r: Record): nat {
    var b := r.body;
    7 + DecimalSize(b.seqNo) + 10 + |b.time| + 10 + TextSize(b.action) + Optional(10, b.target)
    + 10 + TextSize(b.status) + Optional(10, b.detail)
    + (if b.fields == [] then 0 else 12 + MembersSize(b.fields))
    + (if b.prevHash == "" then 0 else 15 + |b.prevHash|) + 10 + |r.hash| + 1
  }

  function Lines(f: File): seq<Line> {
    if f.Some? then f.value else []
  }

  /** The record an append derives from the verified records before it. */
  function NextRecord(rs: seq<Record>, q: Request, hash: Hash): Record {
    var body := Body(|rs| + 1, q.time, Trim(q.action), Trim(q.target), Trim(q.status), Trim(q.detail),
                     q.fields, PrevHash(rs, |rs|));
    Record(body, hash(body))
  }

  predicate Complete(q: Request) {
    Trim(q.action) != [] && Trim(q.status) != []
  }

  /** The line a record is written as. */
  function Written(r: Record): Line {
    Entry(Record(ReloadBody(r.body), r.hash), LineSize(r))
  }

  function Appended(f: File, q: Request, hash: Hash): (File, bool) {
    if Sound(Lines(f), hash) && Complete(q)
    then (Some(Lines(f) + [Written(NextRecord(Records(Lines(f)), q, hash))]), true)
    else (f, false)
  }

  /** A guarded ledger file. */
  class Ledger {
    var file: File

    constructor ()
      ensures file == None
    {
      file := None;
    }

    method Append(q: Request, hash: Hash) returns (r: Result<Record, Error>)
      modifies this
      ensures (file, r.Success?) == Appended(old(file), q, hash)
      ensures r.Success? ==> r.value == NextRecord(Records(Lines(old(file))), q, hash)
    {
      var lines := if file.Some? then file.value else [];
      var scanned, head := Scan(lines, hash);
      if scanned.Failure? {
        return Failure(scanned.error);
      }
      var body := Body(if head.Some? then head.value.body.seqNo + 1 else 1, q.time, Trim(q.action), Trim(q.target),
                       Trim(q.status), Trim(q.detail), q.fields, if head.Some? then head.value.hash else "");
      HeadNumber(lines, hash);
      if body.action == [] || body.status == [] {
        return Failure(MissingFields);
      }
      var rec := Record(body, hash(body));
      file := Some(lines + [Entry(Record(ReloadBody(body), rec.hash), LineSize(rec))]);
      r := Success(rec);
    }

    method Verify(hash: Hash) returns (r: Result<nat, Error>)
      ensures file.None? ==> r == Failure(NoLedger)
      ensures file.Some? ==> (r.Success? <==> Sound(file.value, hash)) && (r.Success? ==> r.value == |Records(file.value)|)
    {
      if file.None? {
        return Failure(NoLedger);
      }
      var head;
      r, head := Scan(file.value, hash);
    }
  }

  lemma HeadNumber(lines: seq<Line>, hash: Hash)
    requires Sound(lines, hash)
    ensures Records(lines) != [] ==> Records(lines)[|Records(lines)| - 1].body.seqNo == |Records(lines)|
  {
    SoundIffChained(lines, hash);
    var rs := Records(lines);
    if rs != [] {
      assert LinkedAt(rs, |rs| - 1, hash);
    }
  }

  /** The texts and fields of a request that survive being written: valid UTF-8 throughout, whole numbers
      that are their own shortest floating-point text, objects with their keys in order. */
  predicate Durable(q: Request) {
    Clean(q.action) && Clean(q.target) && Clean(q.status) && Clean(q.detail) && StableMembers(q.fields)
  }

  /** ... and the line it takes after `rs` fits the scanner. */
  predicate Keeps(rs: seq<Record>, q: Request, hash: Hash) {
    Durable(q) && LineSize(NextRecord(rs, q, hash)) < LINE_LIMIT
  }

  lemma ReloadIffDurable(rs: seq<Record>, q: Request, hash: Hash)
    ensures ReloadBody(NextRecord(rs, q, hash).body) == NextRecord(rs, q, hash).body <==> Durable(q)
  {
    TrimClean(q.action);
    TrimClean(q.target);
    TrimClean(q.status);
    TrimClean(q.detail);
    ReloadTextIff(Trim(q.action));
    ReloadTextIff(Trim(q.target));
    ReloadTextIff(Trim(q.status));
    ReloadTextIff(Trim(q.detail));
    ReloadMembersIff(q.fields);
  }

  /** After a successful append the ledger verifies exactly when the request survives being written. */
  lemma AppendVerifiesIff(f: File, q: Request, hash: Hash)
    requires Digest(hash) && Sound(Lines(f), hash) && Complete(q)
    ensures Sound(Lines(Appended(f, q, hash).0), hash) <==> Keeps(Records(Lines(f)), q, hash)
  {
    var rs := Records(Lines(f));
    var r := NextRecord(rs, q, hash);
    SoundStep(Lines(f), Written(r), hash);
    DigestFold(hash, ReloadBody(r.body), r.body);
    ReloadIffDurable(rs, q, hash);
  }

  function AppendAll(f: File, qs: seq<Request>, hash: Hash): File {
    if qs == [] then f
    else Appended(AppendAll(f, qs[..|qs| - 1], hash), qs[|qs| - 1], hash).0
  }

  /** Once a ledger fails to verify, nothing is appended any more. */
  lemma {:induction false} UnsoundStays(f: File, qs: seq<Request>, hash: Hash)
    requires !Sound(Lines(f), hash)
    ensures AppendAll(f, qs, hash) == f
  {
    if qs != [] {
      UnsoundStays(f, qs[..|qs| - 1], hash);
    }
  }

  /** Every complete request of the run survives being written. */
  ghost predicate AllKept(qs: seq<Request>, hash: Hash) {
    forall n :: 0 <= n < |qs| && Complete(qs[n]) ==> Keeps(Records(Lines(AppendAll(None, qs[..n], hash))), qs[n], hash)
  }

  /** A ledger built by appending from nothing verifies exactly as long as every request in it survives
      being written. */
  lemma {:induction false} BuiltVerifiesIff(qs: seq<Request>, hash: Hash)
    requires Digest(hash)
    ensures Sound(Lines(AppendAll(None, qs, hash)), hash) <==> AllKept(qs, hash)
  {
    if qs != [] {
      var front, q := qs[..|qs| - 1], qs[|qs| - 1];
      BuiltVerifiesIff(front, hash);
      var f := AppendAll(None, front, hash);
      assert forall n :: 0 <= n <= |front| ==> qs[..n] == front[..n];
      assert front[..|front|] == front;
      if Sound(Lines(f), hash) && Complete(q) {
        AppendVerifiesIff(f, q, hash);
      }
      KeptStep(qs, hash);
    }
  }

  lemma KeptStep(qs: seq<Request>, hash: Hash)
    requires qs != []
    ensures var front, q := qs[..|qs| - 1], qs[|qs| - 1];
            AllKept(qs, hash) <==>
              AllKept(front, hash) && (Complete(q) ==> Keeps(Records(Lines(AppendAll(None, front, hash))), q, hash))
  {
    var front := qs[..|qs| - 1];
    assert forall n :: 0 <= n <= |front| ==> qs[..n] == front[..n];
    assert front[..|front|] == front;
    if AllKept(qs, hash) {
      forall n | 0 <= n < |front| && Complete(front[n])
        ensures Keeps(Records(Lines(AppendAll(None, front[..n], hash))), front[n], hash)
      {
        assert qs[n] == front[n];
      }
    }
  }

  // --- Requests that spoil a ledger ---------------------------------------------------------

  /** The first record of a ledger, with the given detail and fields. */
  function First(detail: Text, fields: seq<Member>): Request {
    Request("2025-01-01T00:00:00Z", [Rune('a')], [], [Rune('k')], detail, fields)
  }

  /** The append succeeds, and nothing verifies or can be appended afterwards. */
  ghost predicate Spoils(q: Request, hash: Hash) {
    Appended(None, q, hash).1 && !Sound(Lines(Appended(None, q, hash).0), hash)
  }

  lemma SpoilsUnlessKept(q: Request, hash: Hash)
    requires Digest(hash) && Complete(q) && !Keeps([], q, hash)
    ensures Spoils(q, hash)
  {
    AppendVerifiesIff(None, q, hash);
  }

  /** An error text that is not valid UTF-8. */
  lemma InvalidTextSpoils(hash: Hash)
    requires Digest(hash)
    ensures Spoils(First([BadByte], []), hash)
  {
    SpoilsUnlessKept(First([BadByte], []), hash);
  }

  /** A count beyond 2^53. */
  lemma WideNumberSpoils(hash: Hash, n: nat)
    requires Digest(hash) && n == Float64.MANTISSA + 1
    ensures Spoils(First([], [Member([Rune('n')], Whole(n))]), hash)
  {
    Float64.FirstLost(n);
    var q := First([], [Member([Rune('n')], Whole(n))]);
    assert q.fields[0] in q.fields && !Stable(Whole(n));
    SpoilsUnlessKept(q, hash);
  }

  /** A record value whose members are not declared in alphabetical order. */
  lemma UnsortedRecordSpoils(hash: Hash)
    requires Digest(hash)
    ensures var record := Object([Member([Rune('b')], Null), Member([Rune('a')], Null)]);
            Spoils(First([], [Member([Rune('r')], record)]), hash)
  {
    var ms := [Member([Rune('b')], Null), Member([Rune('a')], Null)];
    var q := First([], [Member([Rune('r')], Object(ms))]);
    assert Chars(ms[0].key) == "b" && Chars(ms[1].key) == "a";
    assert !KeyLess(ms[0], ms[1]);
    assert q.fields[0] in q.fields && !Stable(Object(ms));
    SpoilsUnlessKept(q, hash);
  }

  /** An error text as long as the scanner's buffer. */
  lemma LongTextSpoils(hash: Hash)
    requires Digest(hash)
    ensures Spoils(First(seq(LINE_LIMIT, i => Rune('x')), []), hash)
  {
    var detail: Text := seq(LINE_LIMIT, i => Rune('x'));
    assert Trim(detail) == detail;
    SizeAtLeast(detail);
    SpoilsUnlessKept(First(detail, []), hash);
  }
}
