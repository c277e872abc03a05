/** The line of a ledger record as it is written, character by character of its encoding, and verification and appending
    in terms of it (internal/audit/ledger.go). */
module LedgerText {
  import opened Prelude
  import opened JsonText
  import opened Ledger
  import Inventory

  // --- Writing ---------------------------------------------------------------------------------------

  /** A character stands for one byte of the encoding. */
  function Octet(n: int): string {
    if 0 <= n < 256 then [n as char] else ""
  }

  /** UTF-8 for what is not ASCII. */
  function Encoded(c: char): string {
    var n := c as int;
    if n < 0x800 then Octet(0xC0 + n / 0x40) + Octet(0x80 + n % 0x40)
    else if n < 0x1_0000 then Octet(0xE0 + n / 0x1000) + Octet(0x80 + n / 0x40 % 0x40) + Octet(0x80 + n % 0x40)
    else Octet(0xF0 + n / 0x4_0000) + Octet(0x80 + n / 0x1000 % 0x40) + Octet(0x80 + n / 0x40 % 0x40) + Octet(0x80 + n % 0x40)
  }

  lemma EncodedSize(c: char)
    requires 0x80 <= c as int
    ensures |Encoded(c)| == if c as int < 0x800 then 2 else if c as int < 0x1_0000 then 3 else 4
  {
    var n := c as int;
    assert n < 0x11_0000;
    assert n / 0x40 < 0x4400 && n / 0x1000 < 0x110 && n / 0x4_0000 < 5;
  }

  function Escaped(n: nat): string
    requires n < 0x1_0000
  {
    "\\u" + [Nibble(n / 0x1000)] + [Nibble(n / 0x100 % 0x10)] + [Nibble(n / 0x10 % 0x10)] + [Nibble(n % 0x10)]
  }

  /** One character as it is written: some have an escape of their own, some are written as their number. */
  function GlyphText(g: Glyph): string {
    match g
    case BadByte => Escaped(0xFFFD)
    case Rune('"') => "\\\""
    case Rune('\\') => "\\\\"
    case Rune('\n') => "\\n"
    case Rune('\r') => "\\r"
    case Rune('\t') => "\\t"
    case Rune(c) =>
      if c == '\U{0008}' then "\\b"
      else if c == '\U{000C}' then "\\f"
      else if c as int < 0x20 || c == '<' || c == '>' || c == '&' || c == '\U{2028}' || c == '\U{2029}' then Escaped(c as int)
      else if c as int < 0x80 then [c]
      else Encoded(c)
  }

  lemma GlyphSizeIs(g: Glyph)
    ensures GlyphSize(g) == |GlyphText(g)|
  {
    if g.Rune? && 0x80 <= g.c as int {
      EncodedSize(g.c);
    }
  }

  function Inner(t: Text): string {
    if t == [] then "" else GlyphText(t[0]) + Inner(t[1..])
  }

  function Quoted(t: Text): string {
    "\"" + Inner(t) + "\""
  }

  lemma {:induction false} InnerStep(t: Text, g: Glyph)
    ensures |Inner(t + [g])| == |Inner(t)| + |GlyphText(g)|
  {
    if t == [] {
      assert (t + [g])[1..] == [];
    } else {
      InnerStep(t[1..], g);
      assert (t + [g])[1..] == t[1..] + [g];
    }
  }

  lemma {:induction false} TextSizeIs(t: Text)
    ensures TextSize(t) == |Quoted(t)|
  {
    if t != [] {
      var n := |t| - 1;
      TextSizeIs(t[..n]);
      GlyphSizeIs(t[n]);
      InnerStep(t[..n], t[n]);
      assert t == t[..n] + [t[n]];
    }
  }

  lemma {:induction false} DecimalSizeIs(n: int)
    ensures DecimalSize(n) == |Inventory.Signed(n)|
    decreases if n < 0 then 1 - n else n
  {
    if n < 0 {
      DecimalSizeIs(-n);
    } else if n >= 10 {
      DecimalSizeIs(n / 10);
    }
  }

  function ValueText(v: Value): string
    decreases v, 1
  {
    match v
    case Null => "null"
    case Boolean(yes) => if yes then "true" else "false"
    case Whole(n) => Inventory.Signed(n)
    case Fraction(text) => text
    case Str(t) => Quoted(t)
    case List(items) => "[" + ItemsText(items) + "]"
    case Object(members) => "{" + MembersText(members) + "}"
  }

  function ItemsText(items: seq<Value>): string
    decreases items, 0
  {
    if items == [] then ""
    else
      var front := ItemsText(items[..|items| - 1]);
      front + (if |items| == 1 then "" else ",") + ValueText(items[|items| - 1])
  }

  function MembersText(ms: seq<Member>): string
    decreases ms, 0
  {
    if ms == [] then ""
    else
      var m := ms[|ms| - 1];
      MembersText(ms[..|ms| - 1]) + (if |ms| == 1 then "" else ",") + Quoted(m.key) + ":" + ValueText(m.value)
  }

  lemma {:induction false} ValueSizeIs(v: Value)
    ensures ValueSize(v) == |ValueText(v)|
    decreases v, 1
  {
    match v
    case Whole(n) => DecimalSizeIs(n);
    case Str(t) => TextSizeIs(t);
    case List(items) => ItemsSizeIs(items);
    case Object(members) => MembersSizeIs(members);
    case _ =>
  }

  lemma {:induction false} ItemsSizeIs(items: seq<Value>)
    ensures ItemsSize(items) == |ItemsText(items)|
    decreases items, 0
  {
    if items != [] {
      ItemsSizeIs(items[..|items| - 1]);
      ValueSizeIs(items[|items| - 1]);
    }
  }

  lemma {:induction false} MembersSizeIs(ms: seq<Member>)
    ensures MembersSize(ms) == |MembersText(ms)|
    decreases ms, 0
  {
    if ms != [] {
      var m := ms[|ms| - 1];
      MembersSizeIs(ms[..|ms| - 1]);
      TextSizeIs(m.key);
      ValueSizeIs(m.value);
    }
  }

  /** A string member that is left out when empty. */
  function Spare(name: string, t: Text): string {
    if t == [] then "" else ",\"" + name + "\":" + Quoted(t)
  }

  /** The line without its end. */
  function LineText(r: Record): string {
    var b := r.body;
    "{\"seq\":" + Inventory.Signed(b.seqNo) + ",\"time\":\"" + b.time + "\",\"action\":" + Quoted(b.action) + Spare("target", b.target)
    + ",\"status\":" + Quoted(b.status) + Spare("detail", b.detail)
    + (if b.fields == [] then "" else ",\"fields\":{" + MembersText(b.fields) + "}")
    + (if b.prevHash == "" then "" else ",\"prev_hash\":\"" + b.prevHash + "\"") + ",\"hash\":\"" + r.hash + "\"}"
  }

  /** The size that decides whether a line can be read back is the length of the text that is written. */
  lemma LineSizeIs(r: Record)
    ensures LineSize(r) == |LineText(r)|
  {
    var b := r.body;
    DecimalSizeIs(b.seqNo);
    TextSizeIs(b.action);
    TextSizeIs(b.target);
    TextSizeIs(b.status);
    TextSizeIs(b.detail);
    MembersSizeIs(b.fields);
  }

  // --- Verifying and appending --------------------------------------------------------------------------

  /** Record after record is numbered from one, names the hash stored before it, and has its own hash stored. */
  predicate Follows(rs: seq<Record>, i: nat, hash: Hash)
    requires i < |rs|
  {
    && rs[i].body.seqNo == i + 1
    && (if i == 0 then |rs[i].body.prevHash| == 0 else rs[i].body.prevHash == rs[i - 1].hash)
    && Lower(hash(rs[i].body)) == Lower(rs[i].hash)
  }

  lemma FollowsIff(rs: seq<Record>, i: nat, hash: Hash)
    requires i < |rs|
    ensures LinkedAt(rs, i, hash) <==> Follows(rs, i, hash)
  {
  }

  /** A file verifies when every line is shorter than 8388608 bytes and decodes, and every record follows. */
  lemma VerifiesIff(lines: seq<Line>, hash: Hash)
    ensures Sound(lines, hash)
       <==> && (forall l :: l in lines ==> !l.Garbage? && l.length < 8388608)
            && forall i :: 0 <= i < |Records(lines)| ==> Follows(Records(lines), i, hash)
  {
    SoundIffChained(lines, hash);
    var rs := Records(lines);
    forall i | 0 <= i < |rs| ensures LinkedAt(rs, i, hash) <==> Follows(rs, i, hash) {
      FollowsIff(rs, i, hash);
    }
    assert Chain(rs, hash) <==> forall i :: 0 <= i < |rs| ==> LinkedAt(rs, i, hash);
  }

  /** Which lines are records, in the order they stand. */
  lemma {:induction false} RecordsAre(before: seq<Line>, l: Line, after: seq<Line>)
    ensures Records(before + [l] + after) == Records(before) + (if l.Entry? then [l.record] else []) + Records(after)
    decreases |after|
  {
    var all := before + [l] + after;
    if after == [] {
      assert all == before + [l];
      RecordsStep(before, l);
    } else {
      var n := |after| - 1;
      RecordsAre(before, l, after[..n]);
      assert all[..|all| - 1] == before + [l] + after[..n] && all[|all| - 1] == after[n];
    }
  }

  /** The record an append writes: the next number, the texts without outer spaces, the fields as given, the hash stored
      before, and the hash of all that. */
  lemma NextIs(rs: seq<Record>, q: Request, hash: Hash)
    ensures var r := NextRecord(rs, q, hash);
            && r.body.seqNo == |rs| + 1 && r.body.time == q.time && r.body.fields == q.fields
            && r.body.action == Trim(q.action) && r.body.target == Trim(q.target)
            && r.body.status == Trim(q.status) && r.body.detail == Trim(q.detail)
            && (rs == [] ==> |r.body.prevHash| == 0) && (rs != [] ==> r.body.prevHash == rs[|rs| - 1].hash)
            && r.hash == hash(r.body)
  {
  }

  /** Appending to a ledger object: refused for a ledger that does not verify or a request without action or status;
      otherwise the file has one more line, and it verifies if and only if the texts of the request are valid UTF-8,
      its fields come back as they were, and the line is shorter than 8388608 bytes. */
  method AppendRecord(ledger: Ledger, q: Request, hash: Hash) returns (r: Result<Record, Error>)
    requires Digest(hash)
    modifies ledger
    ensures r.Success? <==> (old(ledger.file).Some? ==> Sound(old(ledger.file).value, hash)) && Trim(q.action) != [] && Trim(q.status) != []
    ensures r.Failure? ==> ledger.file == old(ledger.file)
    ensures r.Success? ==>
              && ledger.file.Some? && 0 < |ledger.file.value|
              && ledger.file.value[..|ledger.file.value| - 1] == (if old(ledger.file).Some? then old(ledger.file).value else [])
              && var last := ledger.file.value[|ledger.file.value| - 1];
                 && last.Entry? && last.length == |LineText(r.value)| && last.record.hash == r.value.hash
                 && last.record.body.seqNo == r.value.body.seqNo && last.record.body.prevHash == r.value.body.prevHash
    ensures r.Success? ==>
              (Sound(ledger.file.value, hash)
               <==> && BadByte !in q.action && BadByte !in q.target && BadByte !in q.status && BadByte !in q.detail
                    && ReloadMembers(q.fields) == q.fields && |LineText(r.value)| < 8388608)
  {
    ghost var before := ledger.file;
    r := ledger.Append(q, hash);
    if r.Success? {
      LineSizeIs(r.value);
      AppendVerifiesIff(before, q, hash);
      ReloadMembersIff(q.fields);
      TrimClean(q.action);
      assert ledger.file == Appended(before, q, hash).0;
    }
  }
}
