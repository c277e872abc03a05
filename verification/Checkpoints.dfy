/** Signed checkpoints pin a whole ledger (internal/audit/checkpoint.go). */
module Checkpoints {
  import opened Prelude
  import opened Ledger

  datatype Claim = Claim(seqNo: nat, hash: string, created: int)

  datatype Checkpoint = Checkpoint(claim: Claim, signature: string)

  /** A signature scheme; `verify(sign(c), c)` must hold. */
  datatype Scheme = Scheme(sign: Claim -> string, verify: (Claim, string) -> bool)

  ghost predicate Correct(s: Scheme) {
    forall c :: s.verify(c, s.sign(c))
  }

  function HeadSeq(rs: seq<Record>): nat {
    if rs == [] then 0 else rs[|rs| - 1].body.seqNo
  }

  function HeadHash(rs: seq<Record>): string {
    if rs == [] then "" else rs[|rs| - 1].hash
  }

  /** The claim names the head of the ledger. */
  predicate Names(c: Claim, rs: seq<Record>) {
    HeadSeq(rs) == c.seqNo && EqualFold(HeadHash(rs), c.hash)
  }

  method WriteCheckpoint(lines: seq<Line>, now: int, s: Scheme, hash: Hash) returns (r: Result<Checkpoint, Error>)
    ensures r.Success? <==> Sound(lines, hash) && Records(lines) != [] && TrimSpace(HeadHash(Records(lines))) != ""
    ensures r.Success? ==> Names(r.value.claim, Records(lines)) && r.value.signature == s.sign(r.value.claim)
  {
    var scanned, head := Scan(lines, hash);
    if scanned.Failure? {
      return Failure(scanned.error);
    }
    HeadNumber(lines, hash);
    if head.None? || head.value.body.seqNo == 0 || TrimSpace(head.value.hash) == "" {
      return Failure(Empty);
    }
    var claim := Claim(head.value.body.seqNo, head.value.hash, now);
    r := Success(Checkpoint(claim, s.sign(claim)));
  }

  method VerifyCheckpoint(lines: seq<Line>, cp: Checkpoint, s: Scheme, hash: Hash) returns (ok: bool)
    ensures ok <==> Sound(lines, hash) && Names(cp.claim, Records(lines)) && s.verify(cp.claim, cp.signature)
  {
    var scanned, head := Scan(lines, hash);
    if scanned.Failure? {
      return false;
    }
    var seqNo, text := if head.Some? then head.value.body.seqNo else 0, if head.Some? then head.value.hash else "";
    if seqNo != cp.claim.seqNo || !EqualFold(text, cp.claim.hash) {
      return false;
    }
    ok := s.verify(cp.claim, cp.signature);
  }

  /** Chained records with folded-equal head hashes agree from the first record on; every hash but the last
      is stored in the next record and so is the same text. */
  lemma {:induction false} SameChain(a: seq<Record>, b: seq<Record>, hash: Hash)
    requires Digest(hash) && Chain(a, hash) && Chain(b, hash) && |a| == |b|
    requires a != [] ==> EqualFold(HeadHash(a), HeadHash(b))
    ensures forall i :: 0 <= i < |a| ==> a[i].body == b[i].body
    ensures forall i :: 0 <= i < |a| - 1 ==> a[i] == b[i]
  {
    if a != [] {
      var n := |a| - 1;
      assert LinkedAt(a, n, hash) && LinkedAt(b, n, hash);
      DigestFold(hash, a[n].body, b[n].body);
      assert a[n].body == b[n].body;
      assert PrevHash(a, n) == PrevHash(b, n);
      FrontChain(a, hash);
      FrontChain(b, hash);
      SameChain(a[..n], b[..n], hash);
    }
  }

  lemma FrontChain(rs: seq<Record>, hash: Hash)
    requires rs != [] && Chain(rs, hash)
    ensures Chain(rs[..|rs| - 1], hash)
  {
    assert rs == rs[..|rs| - 1] + [rs[|rs| - 1]];
    ChainStep(rs[..|rs| - 1], rs[|rs| - 1], hash);
  }

  /** Two ledgers that verify against one checkpoint are the same, record for record, up to letter case of the
      last stored hash. */
  lemma CheckpointBinds(x: seq<Line>, y: seq<Line>, c: Claim, hash: Hash)
    requires Digest(hash) && Sound(x, hash) && Sound(y, hash)
    requires Names(c, Records(x)) && Names(c, Records(y))
    ensures var a, b := Records(x), Records(y);
            && |a| == |b|
            && (forall i :: 0 <= i < |a| ==> a[i].body == b[i].body && EqualFold(a[i].hash, b[i].hash))
            && (forall i :: 0 <= i < |a| - 1 ==> a[i] == b[i])
  {
    SoundIffChained(x, hash);
    SoundIffChained(y, hash);
    HeadNumber(x, hash);
    HeadNumber(y, hash);
    var a, b := Records(x), Records(y);
    SameChain(a, b, hash);
    forall i | 0 <= i < |a| ensures EqualFold(a[i].hash, b[i].hash) {
      assert LinkedAt(a, i, hash) && LinkedAt(b, i, hash);
    }
  }

  /** A checkpoint written with an append verifies afterwards exactly when the appended request survives being
      written. */
  lemma AppendedCheckpointIff(f: File, q: Request, now: int, s: Scheme, hash: Hash)
    requires Digest(hash) && Correct(s) && Sound(Lines(f), hash) && Complete(q)
    ensures var r := NextRecord(Records(Lines(f)), q, hash);
            var lines := Lines(Appended(f, q, hash).0);
            var cp := Checkpoint(Claim(r.body.seqNo, r.hash, now), s.sign(Claim(r.body.seqNo, r.hash, now)));
            (Sound(lines, hash) && Names(cp.claim, Records(lines)) && s.verify(cp.claim, cp.signature)) <==> Keeps(Records(Lines(f)), q, hash)
  {
    AppendVerifiesIff(f, q, hash);
    RecordsStep(Lines(f), Written(NextRecord(Records(Lines(f)), q, hash)));
  }

  /** A ledger that has grown past a checkpoint no longer matches it. */
  lemma GrowthLeavesCheckpoint(f: File, q: Request, c: Claim, hash: Hash)
    requires Digest(hash) && Sound(Lines(f), hash) && Complete(q) && Names(c, Records(Lines(f)))
    requires Sound(Lines(Appended(f, q, hash).0), hash)
    ensures !Names(c, Records(Lines(Appended(f, q, hash).0)))
  {
    var now := Appended(f, q, hash).0;
    RecordsStep(Lines(f), Written(NextRecord(Records(Lines(f)), q, hash)));
    HeadNumber(Lines(f), hash);
    HeadNumber(Lines(now), hash);
  }
}
