/** The receiving side of a resumable upload (internal/controlplane/agent_server.go).
    A transfer has a part file that grows, a spool file it becomes, and a record.
    Where an accepted chunk lands in the part file is explicit: `AtStart` is what the
    handler does, `AtOffset` is what its documentation promises. */
module UploadServer {
  import opened Prelude

  datatype Position = AtStart | AtOffset

  /** Largest chunk; largest transfer, or 0 for no limit. */
  datatype Limits = Limits(chunkMax: nat, transferMax: nat)

  datatype Record = Record(ready: bool, bytes: nat, sha256: string)

  datatype State = State(part: Option<Bytes>, spool: Option<Bytes>, record: Option<Record>)

  type Hash = Bytes -> string

  function PartBytes(s: State): Bytes {
    if s.part.Some? then s.part.value else []
  }

  predicate Ready(s: State) {
    s.record.Some? && s.record.value.ready
  }

  /** The offset the status request answers with. */
  function ServerOffset(s: State): nat {
    if Ready(s) then s.record.value.bytes else |PartBytes(s)|
  }

  /** A file after writing `data` at `pos`. */
  function Overwrite(file: Bytes, pos: nat, data: Bytes): (r: Bytes)
    requires pos <= |file|
    ensures |r| == Max(|file|, pos + |data|)
  {
    file[..pos] + data + if pos + |data| < |file| then file[pos + |data|..] else []
  }

  function Landing(p: Position, offset: nat): nat {
    if p == AtStart then 0 else offset
  }

  predicate Acceptable(l: Limits, hash: Hash, offset: nat, want: string, body: Bytes, complete: bool) {
    complete && |body| <= l.chunkMax && hash(body) == want && (l.transferMax == 0 || offset + |body| <= l.transferMax)
  }

  /** A chunk of which `body` arrives; `complete` tells whether the body ended properly. */
  function Chunked(s: State, p: Position, l: Limits, hash: Hash, offset: nat, want: string, body: Bytes, complete: bool): (State, bool) {
    var file := PartBytes(s);
    if |file| != offset then (s.(part := Some(file)), false)
    else
      var data := body[..Min(|body|, l.chunkMax + 1)];
      var written := Overwrite(file, Landing(p, offset), data);
      if Acceptable(l, hash, offset, want, data, complete)
      then (s.(part := Some(written), record := Some(Record(false, offset + |data|, ""))), true)
      else (s.(part := Some(written[..offset])), false)
  }

  function Finalized(s: State, hash: Hash, sha256: string, bytes: nat): (State, bool) {
    if Ready(s) then (s, s.record.value.bytes == bytes && EqualFold(s.record.value.sha256, sha256))
    else if s.part.None? || |s.part.value| != bytes || !EqualFold(hash(s.part.value), sha256) then (s, false)
    else (State(None, s.part, Some(Record(true, bytes, Lower(sha256)))), true)
  }

  class Server {
    const position: Position
    const limits: Limits
    var part: Option<Bytes>
    var spool: Option<Bytes>
    var record: Option<Record>

    constructor (position: Position, limits: Limits)
      ensures this.position == position && this.limits == limits && Value() == State(None, None, None)
    {
      this.position, this.limits := position, limits;
      part, spool, record := None, None, None;
    }

    function Value(): State
      reads this
    {
      State(part, spool, record)
    }

    method Status() returns (offset: nat, ready: bool)
      ensures offset == ServerOffset(Value()) && ready == Ready(Value())
    {
      offset := if part.Some? then |part.value| else 0;
      ready := false;
      if record.Some? && record.value.ready {
        offset, ready := record.value.bytes, true;
      }
    }

    method Chunk(offset: nat, want: string, body: Bytes, complete: bool, hash: Hash) returns (ok: bool)
      modifies this
      ensures (Value(), ok) == Chunked(old(Value()), position, limits, hash, offset, want, body, complete)
    {
      var file := if part.Some? then part.value else [];
      part := Some(file);
      if |file| != offset {
        return false;
      }
      var data := body[..Min(|body|, limits.chunkMax + 1)];
      part := Some(Overwrite(file, if position == AtStart then 0 else offset, data));
      if !complete || |data| > limits.chunkMax || hash(data) != want
         || (limits.transferMax > 0 && offset + |data| > limits.transferMax) {
        part := Some(part.value[..offset]);
        return false;
      }
      record := Some(Record(false, offset + |data|, ""));
      ok := true;
    }

    /** Repeating a finalize after a lost response is answered from the record. */
    method Finalize(sha256: string, bytes: nat, hash: Hash) returns (ok: bool)
      modifies this
      ensures (Value(), ok) == Finalized(old(Value()), hash, sha256, bytes)
    {
      if record.Some? && record.value.ready {
        return record.value.bytes == bytes && EqualFold(record.value.sha256, sha256);
      }
      if part.None? || |part.value| != bytes || !EqualFold(hash(part.value), sha256) {
        return false;
      }
      spool, part := part, None;
      record := Some(Record(true, bytes, Lower(sha256)));
      ok := true;
    }
  }

  // --- What every run keeps ----------------------------------------------------------------

  /** A transfer recorded as ready has its spool file, of the recorded length and hash. */
  ghost predicate Inv(s: State, hash: Hash) {
    Ready(s) ==> s.spool.Some? && |s.spool.value| == s.record.value.bytes && hash(s.spool.value) == s.record.value.sha256
  }

  datatype Event =
    | ChunkEvent(offset: nat, want: string, body: Bytes, complete: bool)
    | FinalizeEvent(sha256: string, bytes: nat)

  function Step(s: State, p: Position, l: Limits, hash: Hash, e: Event): State {
    match e
    case ChunkEvent(offset, want, body, complete) => Chunked(s, p, l, hash, offset, want, body, complete).0
    case FinalizeEvent(sha256, bytes) => Finalized(s, hash, sha256, bytes).0
  }

  function Run(s: State, p: Position, l: Limits, hash: Hash, events: seq<Event>): State
    decreases |events|
  {
    if events == [] then s else Run(Step(s, p, l, hash, events[0]), p, l, hash, events[1..])
  }

  lemma FinalizeKeepsInv(s: State, hash: Hash, sha256: string, bytes: nat)
    requires Digest(hash) && Inv(s, hash)
    ensures Inv(Finalized(s, hash, sha256, bytes).0, hash)
  {
    if s.part.Some? {
      assert Lower(hash(s.part.value)) == hash(s.part.value);
    }
  }

  /** Whatever requests arrive, from anyone, in any order, wherever chunks land. */
  lemma {:induction false} RunKeepsInv(s: State, p: Position, l: Limits, hash: Hash, events: seq<Event>)
    requires Digest(hash) && Inv(s, hash)
    ensures Inv(Run(s, p, l, hash, events), hash)
    decreases |events|
  {
    if events != [] {
      var e := events[0];
      if e.FinalizeEvent? {
        FinalizeKeepsInv(s, hash, e.sha256, e.bytes);
      }
      RunKeepsInv(Step(s, p, l, hash, e), p, l, hash, events[1..]);
    }
  }

  /** A granted finalize names the bytes of the spool file. */
  lemma FinalizeIsTrue(s: State, hash: Hash, src: Bytes)
    requires Digest(hash) && Inv(s, hash) && Finalized(s, hash, hash(src), |src|).1
    ensures var now := Finalized(s, hash, hash(src), |src|).0; Ready(now) && now.spool == Some(src)
  {
    FinalizeKeepsInv(s, hash, hash(src), |src|);
    var now := Finalized(s, hash, hash(src), |src|).0;
    DigestFold(hash, now.spool.value, src);
    assert EqualFold(hash(now.spool.value), hash(src));
  }

  /** With chunks landing at their offset, the part file changes only by accepted chunks at its end. */
  lemma AppendOnly(s: State, l: Limits, hash: Hash, offset: nat, want: string, body: Bytes, complete: bool)
    ensures var (now, ok) := Chunked(s, AtOffset, l, hash, offset, want, body, complete);
            && PartBytes(now) == PartBytes(s) + (if ok then body else []) && now.spool == s.spool
            && (!ok ==> now.record == s.record)
            && (ok ==> offset == |PartBytes(s)| && hash(body) == want && complete)
  {
    var file := PartBytes(s);
    if |file| == offset {
      var data := body[..Min(|body|, l.chunkMax + 1)];
      assert Overwrite(file, offset, data) == file + data;
      assert (file + data)[..offset] == file;
    }
  }

  /** With chunks landing at the start, no part file outgrows the largest chunk. */
  lemma NeverOutgrows(s: State, l: Limits, hash: Hash, offset: nat, want: string, body: Bytes, complete: bool, bound: nat)
    requires |PartBytes(s)| <= bound && |body| <= bound
    ensures |PartBytes(Chunked(s, AtStart, l, hash, offset, want, body, complete).0)| <= bound
  {
  }

  /** With chunks landing at the start, a rejected chunk leaves the part file as it was exactly when it
      was turned away for its offset or rewrote the first bytes with the bytes they already had. */
  lemma RejectedChunkHarmlessIff(s: State, l: Limits, hash: Hash, offset: nat, want: string, body: Bytes, complete: bool)
    requires !Chunked(s, AtStart, l, hash, offset, want, body, complete).1
    ensures var file, data := PartBytes(s), body[..Min(|body|, l.chunkMax + 1)];
            var n := Min(|data|, |file|);
            var now := Chunked(s, AtStart, l, hash, offset, want, body, complete).0;
            && now.spool == s.spool && now.record == s.record && |PartBytes(now)| == |file|
            && (PartBytes(now) == file <==> offset != |file| || data[..n] == file[..n])
  {
    var file, data := PartBytes(s), body[..Min(|body|, l.chunkMax + 1)];
    var n := Min(|data|, |file|);
    if offset == |file| {
      var kept := Overwrite(file, 0, data)[..offset];
      assert kept == data[..n] + file[n..];
      assert kept[..n] == data[..n];
      assert file == file[..n] + file[n..];
    }
  }

  /** A transfer of four bytes, two to a chunk: the second chunk arrives cut short, is rejected,
      and takes the first byte with it. */
  lemma RejectedChunkDamages(hash: Hash)
    ensures var l, start := Limits(2, 0), State(None, None, None);
            var first, second := ChunkEvent(0, hash([1, 2]), [1, 2], true), ChunkEvent(2, hash([3, 4]), [3], false);
            var before := Run(start, AtStart, l, hash, [first]);
            && before.part == Some([1, 2])
            && !Chunked(before, AtStart, l, hash, 2, hash([3, 4]), [3], false).1
            && Run(start, AtStart, l, hash, [first, second]).part == Some([3, 2])
  {
    var l, start := Limits(2, 0), State(None, None, None);
    var first, second := ChunkEvent(0, hash([1, 2]), [1, 2], true), ChunkEvent(2, hash([3, 4]), [3], false);
    var middle := Step(start, AtStart, l, hash, first);
    assert Overwrite([], 0, [1, 2]) == [1, 2];
    assert [1, 2][..2] == [1, 2];
    assert [first, second][1..] == [second];
    assert middle.part == Some([1, 2]);
    assert Overwrite([1, 2], 0, [3]) == [3, 2];
    assert [3][..1] == [3];
    assert [3, 2][..2] == [3, 2];
    assert Step(middle, AtStart, l, hash, second).part == Some([3, 2]);
    assert Run(middle, AtStart, l, hash, [second]) == Run(Step(middle, AtStart, l, hash, second), AtStart, l, hash, []);
  }
}
