/** Recovery guarantees of the erasure layer: an object survives exactly as long as
    `dataShards` of its shard files do. */
module ErasureRoundTrip {
  import opened Prelude
  import opened Finite
  import opened Erasure

  lemma {:induction false} EmitSplit(block: Bytes, k: nat, b: nat, r: nat)
    requires 0 < b && |block| == k * b
    ensures Emit(Split(block, b), r) == block[..Min(|block|, r)]
  {
    if k > 0 {
      OneLess(k, b);
      if r > 0 {
        var n := Min(b, r);
        EmitSplit(block[b..], k - 1, b, r - n);
        EmitJoins(block, b, r);
      }
    }
  }

  lemma OneLess(k: nat, b: nat)
    requires 0 < k
    ensures k * b == (k - 1) * b + b && b <= k * b
  {
  }

  /** The first piece cut to size, then the rest cut to size. */
  lemma EmitJoins(block: Bytes, b: nat, r: nat)
    requires 0 < b <= |block| && 0 < r
    ensures var n := Min(b, r);
            block[..b][..n] + block[b..][..Min(|block| - b, r - n)] == block[..Min(|block|, r)]
  {
  }

  /** Every open shard file holds its column of `rows`. */
  ghost predicate Streams(ins: seq<Option<Bytes>>, rows: seq<seq<Bytes>>) {
    && RowsOf(rows, |ins|)
    && forall i :: 0 <= i < |ins| && ins[i].Some? ==> ins[i].value == Column(rows, i)
  }

  lemma {:induction false} PresentPointwise(a: seq<Option<Bytes>>, b: seq<Option<Bytes>>)
    requires |a| == |b| && forall i :: 0 <= i < |a| ==> a[i].Some? == b[i].Some?
    ensures Present(a) == Present(b)
  {
    if a != [] {
      PresentPointwise(a[1..], b[1..]);
    }
  }

  lemma StreamsStep(ins: seq<Option<Bytes>>, rows: seq<seq<Bytes>>, b: nat)
    requires rows != [] && Streams(ins, rows) && Uniform(rows[0], b)
    ensures Readable(ins, b)
    ensures ViewOf(Heads(ins, b), rows[0]) && Present(Heads(ins, b)) == Present(ins)
    ensures Streams(Tails(ins, b), rows[1..]) && Present(Tails(ins, b)) == Present(ins)
  {
    assert rows[0] in rows;
    forall i | 0 <= i < |ins| && ins[i].Some?
      ensures b <= |ins[i].value| && ins[i].value[..b] == rows[0][i] && ins[i].value[b..] == Column(rows[1..], i)
    {
      assert ins[i].value == rows[0][i] + Column(rows[1..], i);
    }
    PresentPointwise(Heads(ins, b), ins);
    PresentPointwise(Tails(ins, b), ins);
  }

  lemma CompleteRow(c: Codec, block: Bytes, view: seq<Option<Bytes>>, k: nat, m: nat, b: nat)
    requires MaximumDistance(c, k, m) && 0 < b && |block| == k * b
    requires ViewOf(view, Row(c, block, b)) && k <= Present(view)
    ensures c.complete(view) == Some(Row(c, block, b))
    ensures |Row(c, block, b)| == k + m && Row(c, block, b)[..k] == Split(block, b) && Uniform(Row(c, block, b), b)
  {
    SplitCount(block, k, b);
    RowUniform(c, block, k, m, b);
  }

  lemma RowUniform(c: Codec, block: Bytes, k: nat, m: nat, b: nat)
    requires MaximumDistance(c, k, m) && 0 < b && |block| == k * b
    ensures |Row(c, block, b)| == k + m && Uniform(Row(c, block, b), b)
  {
    SplitCount(block, k, b);
    var data := Split(block, b);
    assert |c.parity(data)| == m && Uniform(c.parity(data), b);
  }

  lemma {:induction false} DecodeRows(
    c: Codec, src: Bytes, ins: seq<Option<Bytes>>, k: nat, m: nat, b: nat, w: nat)
    requires MaximumDistance(c, k, m) && 0 < b && 0 < w == k * b
    requires Streams(ins, Rows(c, src, w, b)) && |ins| == k + m && k <= Present(ins)
    ensures Decode(c, ins, |Rows(c, src, w, b)|, |src|, k, b) == Success(src)
    decreases |src|
  {
    if src != [] {
      var n := Min(|src|, w);
      var row := DecodeRow(c, src, ins, k, m, b, w);
      FirstRow(c, src, 0, n, w, b);
      assert src[0..] == src;
      DecodeRows(c, src[n..], Tails(ins, b), k, m, b, w);
      DecodeUnfolds(c, ins, |Rows(c, src, w, b)|, |src|, k, b, row);
      assert src == src[..n] + src[n..];
    }
  }

  lemma DecodeUnfolds(c: Codec, ins: seq<Option<Bytes>>, blocks: nat, remaining: nat, k: nat, b: nat, row: seq<Bytes>)
    requires 0 < blocks && Readable(ins, b) && c.complete(Heads(ins, b)) == Some(row) && k <= |row|
    ensures Decode(c, ins, blocks, remaining, k, b)
         == Prepend(Emit(row[..k], remaining),
                    Decode(c, Tails(ins, b), blocks - 1, remaining - |Emit(row[..k], remaining)|, k, b))
  {
  }

  /** One round of the block loop completes the row and yields its object bytes. */
  lemma DecodeRow(c: Codec, src: Bytes, ins: seq<Option<Bytes>>, k: nat, m: nat, b: nat, w: nat) returns (row: seq<Bytes>)
    requires MaximumDistance(c, k, m) && 0 < b && 0 < w == k * b && src != []
    requires Streams(ins, Rows(c, src, w, b)) && |ins| == k + m && k <= Present(ins)
    ensures Readable(ins, b) && c.complete(Heads(ins, b)) == Some(row)
    ensures |row| == k + m && Emit(row[..k], |src|) == src[..Min(|src|, w)]
    ensures Streams(Tails(ins, b), Rows(c, src, w, b)[1..]) && k <= Present(Tails(ins, b))
  {
    var n := Min(|src|, w);
    var block := Pad(src[..n], w);
    row := Row(c, block, b);
    RowUniform(c, block, k, m, b);
    StreamsStep(ins, Rows(c, src, w, b), b);
    CompleteRow(c, block, Heads(ins, b), k, m, b);
    EmitSplit(block, k, b, |src|);
    assert block[..Min(|block|, |src|)] == src[..n];
  }

  // --- Which shards count as alive -------------------------------------------

  /** The shard files that still hold what the encoder wrote. */
  ghost function Surviving(dir: ShardDir, full: ShardDir): set<int> {
    set i | i in full.files && i in dir.files && dir.files[i] == full.files[i]
  }

  ghost function AliveFrom(ins: seq<Option<Bytes>>, from: nat): set<int> {
    set i | from <= i < |ins| && ins[i].Some?
  }

  lemma {:induction false} PresentCounts(ins: seq<Option<Bytes>>, from: nat)
    requires from <= |ins|
    ensures Present(ins[from..]) == |AliveFrom(ins, from)|
    decreases |ins| - from
  {
    if from == |ins| {
      assert AliveFrom(ins, from) == {};
    } else {
      PresentCounts(ins, from + 1);
      assert AliveFrom(ins, from) == AliveFrom(ins, from + 1) + (if ins[from].Some? then {from} else {});
    }
  }

  lemma {:induction false} EntryAt(digest: Bytes -> string, columns: seq<Bytes>, shards: seq<Shard>, i: nat)
    requires |shards| <= |columns|
    requires forall j :: 0 <= j < |shards| ==> shards[j] == Entry(digest, j, columns[j])
    ensures EntryOf(shards, i) == if i < |shards| then Some(Entry(digest, i, columns[i])) else None
  {
    if shards != [] {
      EntryAt(digest, columns, shards[..|shards| - 1], i);
    }
  }

  /** Under an encoder's manifest a shard file is opened iff it is undamaged. */
  lemma OpenedEncoded(dir: ShardDir, digest: Bytes -> string, src: Bytes, cfg: Config, blocks: nat, columns: seq<Bytes>)
    requires ValidConfig(cfg) && |columns| == cfg.dataShards + cfg.parityShards && Digest(digest)
    requires dir.manifest == Directory(digest, src, cfg, blocks, columns).manifest
    ensures var ins := Opened(dir, dir.manifest.value, digest);
            && (forall i :: 0 <= i < |columns| ==>
                  ins[i] == if i in dir.files && dir.files[i] == columns[i] then Some(columns[i]) else None)
            && Present(ins) == |Surviving(dir, Directory(digest, src, cfg, blocks, columns))|
  {
    var full := Directory(digest, src, cfg, blocks, columns);
    var ins := Opened(dir, dir.manifest.value, digest);
    forall i | 0 <= i < |columns|
      ensures ins[i] == if i in dir.files && dir.files[i] == columns[i] then Some(columns[i]) else None
    {
      EntryAt(digest, columns, full.manifest.value.shards, i);
      if i in dir.files {
        DigestFold(digest, dir.files[i], columns[i]);
      }
    }
    PresentCounts(ins, 0);
    assert ins[0..] == ins;
    assert AliveFrom(ins, 0) == Surviving(dir, full);
  }

  /** Whatever happened to the shard files of an encoded object, reconstruction
      returns the original bytes when `dataShards` of them survive and reports the
      shortage otherwise. The object may be empty, an exact multiple of the stripe
      width, or end in a partial stripe. */
  lemma RoundTrip(c: Codec, digest: Bytes -> string, src: Bytes, cfg: Config, dir: ShardDir)
    requires Kernel(c, cfg) && Digest(digest)
    requires dir.manifest == Encoded(c, digest, src, cfg).manifest
    ensures var alive := |Surviving(dir, Encoded(c, digest, src, cfg))|;
            Reconstruction(dir, c, digest)
              == if alive < cfg.dataShards then Failure(InsufficientShards(alive)) else Success(src)
  {
    var k, m, b := cfg.dataShards, cfg.parityShards, cfg.blockBytes;
    RowsShape(c, src, k, m, b);
    var rows := Rows(c, src, Width(cfg), b);
    var columns := Columns(rows, k + m);
    OpenedEncoded(dir, digest, src, cfg, |rows|, columns);
    var ins := Opened(dir, dir.manifest.value, digest);
    if k <= Present(ins) {
      DecodeRows(c, src, ins, k, m, b, Width(cfg));
    }
    ReconstructionIs(dir, c, digest, src, cfg, |rows|, columns);
  }

  /** Reconstruction is decoding what could be opened, when that gives the source back. */
  lemma ReconstructionIs(dir: ShardDir, c: Codec, digest: Bytes -> string, src: Bytes, cfg: Config, blocks: nat, columns: seq<Bytes>)
    requires ValidConfig(cfg) && Digest(digest) && dir.manifest == Directory(digest, src, cfg, blocks, columns).manifest
    requires var ins := Opened(dir, dir.manifest.value, digest);
             cfg.dataShards <= Present(ins) ==> Decode(c, ins, blocks, |src|, cfg.dataShards, cfg.blockBytes) == Success(src)
    ensures var alive := Present(Opened(dir, dir.manifest.value, digest));
            Reconstruction(dir, c, digest) == if alive < cfg.dataShards then Failure(InsufficientShards(alive)) else Success(src)
  {
    DigestFold(digest, src, src);
  }

  /** Losing or visibly corrupting at most `parityShards` shard files loses nothing. */
  lemma SurvivesParityLoss(c: Codec, digest: Bytes -> string, src: Bytes, cfg: Config, dir: ShardDir, damaged: set<int>)
    requires Kernel(c, cfg) && Digest(digest)
    requires dir.manifest == Encoded(c, digest, src, cfg).manifest
    requires |damaged| <= cfg.parityShards
    requires var full := Encoded(c, digest, src, cfg).files;
             forall i :: i in full && i !in damaged ==> i in dir.files && dir.files[i] == full[i]
    ensures Reconstruction(dir, c, digest) == Success(src)
  {
    var full := Encoded(c, digest, src, cfg);
    var total := cfg.dataShards + cfg.parityShards;
    var all := Interval(0, total);
    IntervalSize(0, total);
    assert all - damaged <= Surviving(dir, full);
    assert |all| == |all - damaged| + |all * damaged|;
    SubsetSize(all * damaged, damaged);
    SubsetSize(all - damaged, Surviving(dir, full));
    RoundTrip(c, digest, src, cfg, dir);
  }

  /** The cheap check and the real reconstruction agree on every damaged directory. */
  lemma VerifyPredictsReconstruction(c: Codec, digest: Bytes -> string, src: Bytes, cfg: Config, dir: ShardDir)
    requires Kernel(c, cfg) && Digest(digest)
    requires dir.manifest == Encoded(c, digest, src, cfg).manifest
    ensures CountVerified(dir, dir.manifest.value.shards, digest) >= cfg.dataShards
            <==> Reconstruction(dir, c, digest) == Success(src)
  {
    VerifiedSurvive(c, digest, src, cfg, dir);
    RoundTrip(c, digest, src, cfg, dir);
  }

  lemma VerifiedSurvive(c: Codec, digest: Bytes -> string, src: Bytes, cfg: Config, dir: ShardDir)
    requires Kernel(c, cfg) && Digest(digest)
    requires dir.manifest == Encoded(c, digest, src, cfg).manifest
    ensures CountVerified(dir, dir.manifest.value.shards, digest) == |Surviving(dir, Encoded(c, digest, src, cfg))|
  {
    RowsShape(c, src, cfg.dataShards, cfg.parityShards, cfg.blockBytes);
    var rows := Rows(c, src, Width(cfg), cfg.blockBytes);
    VerifiedColumns(digest, src, cfg, |rows|, Columns(rows, cfg.dataShards + cfg.parityShards), dir);
  }

  lemma VerifiedColumns(digest: Bytes -> string, src: Bytes, cfg: Config, blocks: nat, columns: seq<Bytes>, dir: ShardDir)
    requires ValidConfig(cfg) && |columns| == cfg.dataShards + cfg.parityShards && Digest(digest)
    requires dir.manifest == Directory(digest, src, cfg, blocks, columns).manifest
    ensures CountVerified(dir, dir.manifest.value.shards, digest) == |Surviving(dir, Directory(digest, src, cfg, blocks, columns))|
  {
    OpenedEncoded(dir, digest, src, cfg, blocks, columns);
    VerifiedArePresent(dir, digest, columns, dir.manifest.value.shards, 0, Opened(dir, dir.manifest.value, digest));
  }

  lemma {:induction false} VerifiedArePresent(
    dir: ShardDir, digest: Bytes -> string, columns: seq<Bytes>, shards: seq<Shard>, from: nat, ins: seq<Option<Bytes>>)
    requires Digest(digest) && |ins| == |shards| && from + |shards| == |columns|
    requires forall j :: 0 <= j < |shards| ==>
      && shards[j] == Entry(digest, from + j, columns[from + j])
      && ins[j].Some? == (from + j in dir.files && dir.files[from + j] == columns[from + j])
    ensures CountVerified(dir, shards, digest) == Present(ins)
  {
    if shards != [] {
      if from in dir.files {
        DigestFold(digest, dir.files[from], columns[from]);
      }
      VerifiedArePresent(dir, digest, columns, shards[1..], from + 1, ins[1..]);
    }
  }
}
