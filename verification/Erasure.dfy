/** Blocked, zero-padded, striped erasure coding of one object
    (internal/erasure/erasure.go).

    The Reed-Solomon kernel is a parameter constrained by `MaximumDistance`;
    the framing (stripes, padding, truncation, shard files) is modelled in full.
    A shard file is identified by its shard index. */
module Erasure {
  import opened Prelude

  const MIN_BLOCK := 65536

  datatype Config = Config(dataShards: int, parityShards: int, blockBytes: int)

  datatype Shard = Shard(index: int, bytes: int, sha256: string)

  datatype Manifest = Manifest(
    objectSha256: string,
    originalBytes: int,
    dataShards: int,
    parityShards: int,
    blockBytes: int,
    blocks: int,
    shards: seq<Shard>)

  /** A shard directory: the manifest, when it can be read, and the shard files. */
  datatype ShardDir = ShardDir(manifest: Option<Manifest>, files: map<int, Bytes>)

  datatype Error =
    | InvalidConfig
    | DestinationExists
    | ManifestUnreadable
    | InsufficientShards(available: int)
    | ShortRead
    | CodecFailure
    | Truncated(missing: int)
    | DigestMismatch

  /** The Reed-Solomon kernel: parity of one stripe, and completion of a stripe
      of which some shards are missing. */
  datatype Codec = Codec(
    parity: seq<Bytes> -> seq<Bytes>,
    complete: seq<Option<Bytes>> -> Option<seq<Bytes>>)

  predicate Uniform(row: seq<Bytes>, len: nat) {
    forall i :: 0 <= i < |row| ==> |row[i]| == len
  }

  predicate ViewOf(view: seq<Option<Bytes>>, row: seq<Bytes>) {
    && |view| == |row|
    && forall i :: 0 <= i < |row| && view[i].Some? ==> view[i].value == row[i]
  }

  function Present(view: seq<Option<Bytes>>): (n: nat)
    ensures n <= |view|
  {
    if view == [] then 0 else (if view[0].Some? then 1 else 0) + Present(view[1..])
  }

  /** Any `k` of the `k + m` shards of a stripe determine all of them. */
  ghost predicate MaximumDistance(c: Codec, k: nat, m: nat) {
    && (forall data: seq<Bytes>, len: nat {:trigger c.parity(data), Uniform(data, len)} ::
          |data| == k && Uniform(data, len) ==> |c.parity(data)| == m && Uniform(c.parity(data), len))
    && (forall data: seq<Bytes>, len: nat, view {:trigger Uniform(data, len), c.parity(data), c.complete(view)} ::
          && |data| == k && Uniform(data, len) && 0 < len
          && ViewOf(view, data + c.parity(data)) && k <= Present(view)
          ==> c.complete(view) == Some(data + c.parity(data)))
  }

  // --- Specification of the encoder ---------------------------------------

  function Zeros(n: nat): Bytes {
    seq(n, _ => 0)
  }

  function Pad(block: Bytes, width: nat): (r: Bytes)
    requires |block| <= width
    ensures |r| == width && r[..|block|] == block
  {
    block + Zeros(width - |block|)
  }

  /** The data shards of one stripe: consecutive pieces of `b` bytes. */
  function Split(block: Bytes, b: nat): (r: seq<Bytes>)
    requires 0 < b
    ensures Uniform(r, b)
    decreases |block|
  {
    if |block| < b then [] else [block[..b]] + Split(block[b..], b)
  }

  function Row(c: Codec, block: Bytes, b: nat): seq<Bytes>
    requires 0 < b
  {
    Split(block, b) + c.parity(Split(block, b))
  }

  /** One row of shard pieces per stripe of `w` bytes; the last stripe is zero-padded. */
  function Rows(c: Codec, src: Bytes, w: nat, b: nat): seq<seq<Bytes>>
    requires 0 < w && 0 < b
    decreases |src|
  {
    if src == [] then []
    else
      var n := Min(|src|, w);
      [Row(c, Pad(src[..n], w), b)] + Rows(c, src[n..], w, b)
  }

  /** The content of shard file `i`: its piece of every stripe, in order. */
  function Column(rows: seq<seq<Bytes>>, i: nat): Bytes
    requires forall r :: r in rows ==> i < |r|
  {
    if rows == [] then [] else rows[0][i] + Column(rows[1..], i)
  }

  predicate ValidConfig(cfg: Config) {
    2 <= cfg.dataShards && 1 <= cfg.parityShards && MIN_BLOCK <= cfg.blockBytes
  }

  function Width(cfg: Config): (w: nat)
    requires ValidConfig(cfg)
    ensures 0 < w
  {
    cfg.dataShards * cfg.blockBytes
  }

  ghost predicate Kernel(c: Codec, cfg: Config) {
    ValidConfig(cfg) && MaximumDistance(c, cfg.dataShards, cfg.parityShards)
  }

  function Columns(rows: seq<seq<Bytes>>, n: nat): seq<Bytes>
    requires RowsOf(rows, n)
  {
    seq(n, i requires 0 <= i < n => Column(rows, i))
  }

  predicate RowsOf(rows: seq<seq<Bytes>>, n: nat) {
    forall r :: r in rows ==> |r| == n
  }

  function Entry(digest: Bytes -> string, i: nat, content: Bytes): Shard {
    Shard(i, |content|, digest(content))
  }

  /** The directory of an object whose shard files are `columns`. */
  function Directory(digest: Bytes -> string, src: Bytes, cfg: Config, blocks: nat, columns: seq<Bytes>): ShardDir {
    ShardDir(
      Some(Manifest(digest(src), |src|, cfg.dataShards, cfg.parityShards, cfg.blockBytes, blocks,
                    seq(|columns|, i requires 0 <= i < |columns| => Entry(digest, i, columns[i])))),
      map i | 0 <= i < |columns| :: columns[i])
  }

  /** What encoding an object must leave in its shard directory. */
  ghost function Encoded(c: Codec, digest: Bytes -> string, src: Bytes, cfg: Config): (dir: ShardDir)
    requires Kernel(c, cfg)
  {
    RowsShape(c, src, cfg.dataShards, cfg.parityShards, cfg.blockBytes);
    var rows := Rows(c, src, Width(cfg), cfg.blockBytes);
    Directory(digest, src, cfg, |rows|, Columns(rows, cfg.dataShards + cfg.parityShards))
  }

  lemma {:induction false} SplitCount(block: Bytes, k: nat, b: nat)
    requires 0 < b && |block| == k * b
    ensures |Split(block, b)| == k
  {
    if k > 0 {
      assert k * b == (k - 1) * b + b;
      SplitCount(block[b..], k - 1, b);
    }
  }

  lemma {:induction false} RowsShape(c: Codec, src: Bytes, k: nat, m: nat, b: nat)
    requires MaximumDistance(c, k, m) && 0 < b && 0 < k * b
    ensures RowsOf(Rows(c, src, k * b, b), k + m)
    decreases |src|
  {
    if src != [] {
      var n := Min(|src|, k * b);
      var data := Split(Pad(src[..n], k * b), b);
      SplitCount(Pad(src[..n], k * b), k, b);
      assert |c.parity(data)| == m && Uniform(c.parity(data), b);
      RowsShape(c, src[n..], k, m, b);
    }
  }

  // --- Encoding -------------------------------------------------------------

  /** Reads the next stripe into the reused buffer and pads it in place. */
  method FillBlock(src: Bytes, pos: nat, buf: array<byte>) returns (n: nat)
    requires pos <= |src|
    modifies buf
    ensures n == Min(|src| - pos, buf.Length)
    ensures buf[..] == Pad(src[pos..pos + n], buf.Length)
  {
    n := Min(|src| - pos, buf.Length);
    for i := 0 to n
      invariant buf[..i] == src[pos..pos + i]
    {
      buf[i] := src[pos + i];
    }
    for i := n to buf.Length
      invariant buf[..n] == src[pos..pos + n]
      invariant forall j :: n <= j < i ==> buf[j] == 0
    {
      buf[i] := 0;
    }
  }

  /** Slices the block buffer into its data shards. */
  method DataShards(block: Bytes, k: nat, b: nat) returns (shards: seq<Bytes>)
    requires 0 < b && |block| == k * b
    ensures shards == Split(block, b)
  {
    shards := [];
    var start := 0;
    for i := 0 to k
      invariant start == i * b <= |block|
      invariant shards + Split(block[start..], b) == Split(block, b)
    {
      assert (i + 1) * b == i * b + b && (i + 1) * b <= k * b;
      assert block[start..][..b] == block[start..start + b];
      assert block[start..][b..] == block[start + b..];
      shards := shards + [block[start..start + b]];
      start := start + b;
    }
  }

  method AppendRow(outs: array<Bytes>, row: seq<Bytes>)
    requires |row| == outs.Length
    modifies outs
    ensures forall i :: 0 <= i < outs.Length ==> outs[i] == old(outs[i]) + row[i]
  {
    for i := 0 to outs.Length
      invariant forall j :: 0 <= j < i ==> outs[j] == old(outs[j]) + row[j]
      invariant forall j :: i <= j < outs.Length ==> outs[j] == old(outs[j])
    {
      outs[i] := outs[i] + row[i];
    }
  }

  /** `outs` holds every column of `all` except the part that `rest` contributes. */
  ghost predicate Written(outs: seq<Bytes>, rest: seq<seq<Bytes>>, all: seq<seq<Bytes>>) {
    && RowsOf(rest, |outs|) && RowsOf(all, |outs|)
    && forall i :: 0 <= i < |outs| ==> outs[i] + Column(rest, i) == Column(all, i)
  }

  lemma WrittenStep(outs: seq<Bytes>, outs': seq<Bytes>, rest: seq<seq<Bytes>>, all: seq<seq<Bytes>>)
    requires Written(outs, rest, all) && rest != []
    requires |outs'| == |outs|
    requires forall i :: 0 <= i < |outs| ==> outs'[i] == outs[i] + rest[0][i]
    ensures Written(outs', rest[1..], all)
  {
    forall i | 0 <= i < |outs| ensures outs'[i] + Column(rest[1..], i) == Column(all, i) {
      assert outs'[i] + Column(rest[1..], i) == outs[i] + (rest[0][i] + Column(rest[1..], i));
    }
  }

  /** Encodes the padded block and appends its row to the shard files. */
  method AppendBlock(block: Bytes, c: Codec, k: nat, b: nat, outs: array<Bytes>,
                     ghost rest: seq<seq<Bytes>>, ghost rows: seq<seq<Bytes>>)
    requires 0 < b && |block| == k * b
    requires rest != [] && rest[0] == Row(c, block, b) && Written(outs[..], rest, rows)
    modifies outs
    ensures Written(outs[..], rest[1..], rows)
  {
    var data := DataShards(block, k, b);
    var row := data + c.parity(data);
    assert row in rest;
    ghost var before := outs[..];
    AppendRow(outs, row);
    WrittenStep(before, outs[..], rest, rows);
  }

  /** One round of the stripe loop. */
  method WriteStripe(src: Bytes, pos: nat, buf: array<byte>, c: Codec, k: nat, b: nat, outs: array<Bytes>,
                     ghost rest: seq<seq<Bytes>>, ghost rows: seq<seq<Bytes>>)
    returns (n: nat)
    requires pos < |src| && 0 < b && 0 < buf.Length == k * b
    requires rest == Rows(c, src[pos..], buf.Length, b) && Written(outs[..], rest, rows)
    modifies buf, outs
    ensures 0 < n <= |src| - pos
    ensures rest != [] && rest[1..] == Rows(c, src[pos + n..], buf.Length, b)
    ensures Written(outs[..], rest[1..], rows)
  {
    n := FillBlock(src, pos, buf);
    FirstRow(c, src, pos, n, buf.Length, b);
    AppendBlock(buf[..], c, k, b, outs, rest, rows);
  }

  /** The rows from `pos` on are the row of the next stripe and the rows after it. */
  lemma FirstRow(c: Codec, src: Bytes, pos: nat, n: nat, w: nat, b: nat)
    requires pos < |src| && 0 < b && 0 < w && n == Min(|src| - pos, w)
    ensures Rows(c, src[pos..], w, b) == [Row(c, Pad(src[pos..pos + n], w), b)] + Rows(c, src[pos + n..], w, b)
  {
    assert src[pos..][..n] == src[pos..pos + n];
    assert src[pos..][n..] == src[pos + n..];
  }

  /** `pos` bytes have been striped into `blocks` rows. */
  ghost predicate Striped(c: Codec, src: Bytes, w: nat, b: nat, pos: nat, blocks: nat, outs: seq<Bytes>, rest: seq<seq<Bytes>>)
    requires 0 < w && 0 < b
  {
    var rows := Rows(c, src, w, b);
    pos <= |src| && rest == Rows(c, src[pos..], w, b) && blocks + |rest| == |rows| && Written(outs, rest, rows)
  }

  lemma StripedStart(c: Codec, src: Bytes, w: nat, b: nat, outs: seq<Bytes>)
    requires 0 < w && 0 < b && RowsOf(Rows(c, src, w, b), |outs|) && forall i :: 0 <= i < |outs| ==> outs[i] == []
    ensures Striped(c, src, w, b, 0, 0, outs, Rows(c, src, w, b))
  {
    assert src[0..] == src;
    forall i | 0 <= i < |outs| ensures outs[i] + Column(Rows(c, src, w, b), i) == Column(Rows(c, src, w, b), i) {
    }
  }

  lemma StripedEnd(c: Codec, src: Bytes, w: nat, b: nat, blocks: nat, outs: seq<Bytes>, rest: seq<seq<Bytes>>)
    requires 0 < w && 0 < b && Striped(c, src, w, b, |src|, blocks, outs, rest)
    ensures blocks == |Rows(c, src, w, b)| && Written(outs, [], Rows(c, src, w, b))
  {
    assert src[|src|..] == [];
  }

  /** The stripe loop: an empty read ends it. */
  method WriteStripes(src: Bytes, buf: array<byte>, c: Codec, k: nat, b: nat, outs: array<Bytes>)
    returns (blocks: nat)
    requires 0 < b && 0 < buf.Length == k * b && RowsOf(Rows(c, src, buf.Length, b), outs.Length)
    requires forall i :: 0 <= i < outs.Length ==> outs[i] == []
    modifies buf, outs
    ensures blocks == |Rows(c, src, buf.Length, b)| && Written(outs[..], [], Rows(c, src, buf.Length, b))
  {
    ghost var rows := Rows(c, src, buf.Length, b);
    ghost var rest := rows;
    StripedStart(c, src, buf.Length, b, outs[..]);
    blocks := 0;
    var pos: nat := 0;
    while pos < |src|
      invariant Striped(c, src, buf.Length, b, pos, blocks, outs[..], rest)
      decreases |src| - pos
    {
      var n := WriteStripe(src, pos, buf, c, k, b, outs, rest, rows);
      blocks, pos, rest := blocks + 1, pos + n, rest[1..];
    }
    StripedEnd(c, src, buf.Length, b, blocks, outs[..], rest);
  }

  lemma WrittenAll(outs: seq<Bytes>, rows: seq<seq<Bytes>>)
    requires Written(outs, [], rows)
    ensures outs == Columns(rows, |outs|)
  {
    forall i | 0 <= i < |outs| ensures outs[i] == Column(rows, i) {
      assert outs[i] + Column([], i) == outs[i];
    }
  }

  /** Describes the staged shard files in a manifest. */
  method Stage(src: Bytes, digest: Bytes -> string, cfg: Config, blocks: nat, outs: array<Bytes>)
    returns (dir: ShardDir)
    ensures dir == Directory(digest, src, cfg, blocks, outs[..])
  {
    var shards: seq<Shard> := [];
    for i := 0 to outs.Length
      invariant |shards| == i
      invariant forall j :: 0 <= j < i ==> shards[j] == Entry(digest, j, outs[j])
    {
      shards := shards + [Shard(i, |outs[i]|, digest(outs[i]))];
    }
    var manifest :=
      Manifest(digest(src), |src|, cfg.dataShards, cfg.parityShards, cfg.blockBytes, blocks, shards);
    dir := ShardDir(Some(manifest), map i | 0 <= i < outs.Length :: outs[i]);
    assert shards == Directory(digest, src, cfg, blocks, outs[..]).manifest.value.shards;
  }

  method EncodeFile(src: Bytes, dst: Option<ShardDir>, c: Codec, digest: Bytes -> string, cfg: Config)
    returns (r: Result<Manifest, Error>, dst': Option<ShardDir>)
    requires ValidConfig(cfg) ==> Kernel(c, cfg)
    ensures !ValidConfig(cfg) ==> r == Failure(InvalidConfig) && dst' == dst
    ensures ValidConfig(cfg) && dst.None? ==>
              dst' == Some(Encoded(c, digest, src, cfg)) && r == Success(dst'.value.manifest.value)
    ensures ValidConfig(cfg) && dst.Some? ==>
              && dst' == dst
              && r == if dst.value.manifest.Some? && dst.value.manifest.value.objectSha256 == digest(src)
                      then Success(dst.value.manifest.value) else Failure(DestinationExists)
  {
    if cfg.dataShards < 2 || cfg.parityShards < 1 || cfg.blockBytes < MIN_BLOCK {
      return Failure(InvalidConfig), dst;
    }
    RowsShape(c, src, cfg.dataShards, cfg.parityShards, cfg.blockBytes);
    var outs := new Bytes[cfg.dataShards + cfg.parityShards](_ => []);
    var buf := new byte[Width(cfg)];
    var blocks := WriteStripes(src, buf, c, cfg.dataShards, cfg.blockBytes, outs);
    WrittenAll(outs[..], Rows(c, src, Width(cfg), cfg.blockBytes));
    var stage := Stage(src, digest, cfg, blocks, outs);
    var manifest := stage.manifest.value;
    if dst.Some? {
      var found := dst.value.manifest;
      if found.Some? && found.value.objectSha256 == manifest.objectSha256 {
        return Success(found.value), dst;
      }
      return Failure(DestinationExists), dst;
    }
    dst' := Some(stage);
    r := Success(manifest);
  }

  // --- Verification and reconstruction --------------------------------------

  predicate Intact(dir: ShardDir, sh: Shard, digest: Bytes -> string) {
    sh.index in dir.files && EqualFold(digest(dir.files[sh.index]), sh.sha256)
  }

  function CountVerified(dir: ShardDir, shards: seq<Shard>, digest: Bytes -> string): nat {
    if shards == [] then 0
    else
      (if Intact(dir, shards[0], digest) && |dir.files[shards[0].index]| == shards[0].bytes then 1 else 0)
      + CountVerified(dir, shards[1..], digest)
  }

  method Verify(dir: ShardDir, digest: Bytes -> string) returns (r: Result<Manifest, Error>)
    ensures r == if dir.manifest.None? then Failure(ManifestUnreadable)
                 else
                   var m := dir.manifest.value;
                   var valid := CountVerified(dir, m.shards, digest);
                   if valid < m.dataShards then Failure(InsufficientShards(valid)) else Success(m)
  {
    if dir.manifest.None? {
      return Failure(ManifestUnreadable);
    }
    var m := dir.manifest.value;
    var valid := 0;
    for i := 0 to |m.shards|
      invariant valid + CountVerified(dir, m.shards[i..], digest) == CountVerified(dir, m.shards, digest)
    {
      var sh := m.shards[i];
      if sh.index in dir.files && |dir.files[sh.index]| == sh.bytes && EqualFold(digest(dir.files[sh.index]), sh.sha256) {
        valid := valid + 1;
      }
    }
    return if valid < m.dataShards then Failure(InsufficientShards(valid)) else Success(m);
  }

  /** The manifest entry of index `i`; the last one wins. */
  function EntryOf(shards: seq<Shard>, i: int): Option<Shard> {
    if shards == [] then None
    else
      var last := shards[|shards| - 1];
      if last.index == i then Some(last) else EntryOf(shards[..|shards| - 1], i)
  }

  /** The shard file of index `i`, when the manifest lists it and it verifies. */
  function Accepted(dir: ShardDir, shards: seq<Shard>, i: int, digest: Bytes -> string): Option<Bytes> {
    match EntryOf(shards, i)
    case None => None
    case Some(sh) => if Intact(dir, sh, digest) then Some(dir.files[sh.index]) else None
  }

  function Opened(dir: ShardDir, m: Manifest, digest: Bytes -> string): (r: seq<Option<Bytes>>)
    requires 0 <= m.dataShards + m.parityShards
  {
    var total := m.dataShards + m.parityShards;
    seq(total, i requires 0 <= i < total => Accepted(dir, m.shards, i, digest))
  }

  predicate Readable(ins: seq<Option<Bytes>>, b: nat) {
    forall i :: 0 <= i < |ins| && ins[i].Some? ==> b <= |ins[i].value|
  }

  function Heads(ins: seq<Option<Bytes>>, b: nat): seq<Option<Bytes>>
    requires Readable(ins, b)
  {
    seq(|ins|, i requires 0 <= i < |ins| => if ins[i].Some? then Some(ins[i].value[..b]) else None)
  }

  function Tails(ins: seq<Option<Bytes>>, b: nat): seq<Option<Bytes>>
    requires Readable(ins, b)
  {
    seq(|ins|, i requires 0 <= i < |ins| => if ins[i].Some? then Some(ins[i].value[b..]) else None)
  }

  /** The bytes of a completed row that still belong to the object. */
  function Emit(row: seq<Bytes>, remaining: int): Bytes {
    if row == [] || remaining <= 0 then []
    else
      var n := Min(|row[0]|, remaining);
      row[0][..n] + Emit(row[1..], remaining - n)
  }

  function Prepend(out: Bytes, r: Result<Bytes, Error>): Result<Bytes, Error> {
    match r
    case Success(x) => Success(out + x)
    case Failure(e) => Failure(e)
  }

  /** The block loop of reconstruction over the open shard files. */
  function Decode(c: Codec, ins: seq<Option<Bytes>>, blocks: int, remaining: int, k: nat, b: nat): Result<Bytes, Error>
    decreases blocks
  {
    if blocks <= 0 then (if remaining != 0 then Failure(Truncated(remaining)) else Success([]))
    else if !Readable(ins, b) then Failure(ShortRead)
    else
      match c.complete(Heads(ins, b))
      case None => Failure(CodecFailure)
      case Some(row) =>
        if |row| < k then Failure(CodecFailure)
        else
          var out := Emit(row[..k], remaining);
          Prepend(out, Decode(c, Tails(ins, b), blocks - 1, remaining - |out|, k, b))
  }

  function Sealed(r: Result<Bytes, Error>, digest: Bytes -> string, want: string): Result<Bytes, Error> {
    if r.Success? && !EqualFold(digest(r.value), want) then Failure(DigestMismatch) else r
  }

  /** Reconstruction as a function of the shard directory. */
  function Reconstruction(dir: ShardDir, c: Codec, digest: Bytes -> string): Result<Bytes, Error> {
    if dir.manifest.None? then Failure(ManifestUnreadable)
    else
      var m := dir.manifest.value;
      if m.dataShards < 1 || m.parityShards < 0 || m.blockBytes < 0 then Failure(InvalidConfig)
      else
        var ins := Opened(dir, m, digest);
        if Present(ins) < m.dataShards then Failure(InsufficientShards(Present(ins)))
        else Sealed(Decode(c, ins, m.blocks, m.originalBytes, m.dataShards, m.blockBytes), digest, m.objectSha256)
  }

  /** Opens the shard files that verify. */
  method OpenShards(dir: ShardDir, m: Manifest, digest: Bytes -> string, ins: array<Option<Bytes>>)
    returns (available: nat)
    requires ins.Length == m.dataShards + m.parityShards
    modifies ins
    ensures ins[..] == Opened(dir, m, digest) && available == Present(ins[..])
  {
    var byIndex: map<int, Shard> := map[];
    for j := 0 to |m.shards|
      invariant forall i :: (i in byIndex) == EntryOf(m.shards[..j], i).Some?
      invariant forall i :: i in byIndex ==> byIndex[i] == EntryOf(m.shards[..j], i).value
    {
      assert m.shards[..j + 1][..j] == m.shards[..j];
      byIndex := byIndex[m.shards[j].index := m.shards[j]];
    }
    assert m.shards[..|m.shards|] == m.shards;
    ghost var want := Opened(dir, m, digest);
    available := 0;
    for i := 0 to ins.Length
      invariant forall j :: 0 <= j < i ==> ins[j] == want[j]
      invariant available + Present(want[i..]) == Present(want)
    {
      ins[i] := None;
      if i in byIndex && Intact(dir, byIndex[i], digest) {
        ins[i] := Some(dir.files[byIndex[i].index]);
        available := available + 1;
      }
    }
  }

  /** Reads the next block of every open shard file. */
  method ReadRow(ins: array<Option<Bytes>>, b: nat) returns (view: seq<Option<Bytes>>, ok: bool)
    modifies ins
    ensures ok == Readable(old(ins[..]), b)
    ensures ok ==> view == Heads(old(ins[..]), b) && ins[..] == Tails(old(ins[..]), b)
  {
    view, ok := [], true;
    for i := 0 to ins.Length
      invariant |view| == i
      invariant forall j :: i <= j < ins.Length ==> ins[j] == old(ins[j])
      invariant forall j :: 0 <= j < i && old(ins[j]).Some? ==> b <= |old(ins[j]).value|
      invariant forall j :: 0 <= j < i ==>
        && view[j] == (if old(ins[j]).Some? then Some(old(ins[j]).value[..b]) else None)
        && ins[j] == (if old(ins[j]).Some? then Some(old(ins[j]).value[b..]) else None)
    {
      if ins[i].Some? {
        var file := ins[i].value;
        if |file| < b {
          ok := false;
          assert !Readable(old(ins[..]), b);
          return;
        }
        view := view + [Some(file[..b])];
        ins[i] := Some(file[b..]);
      } else {
        view := view + [None];
      }
    }
  }

  /** Writes the data shards of a row until no object bytes remain. */
  method WriteData(row: seq<Bytes>, remaining: int) returns (out: Bytes)
    ensures out == Emit(row, remaining)
  {
    out := [];
    var left, i := remaining, 0;
    while i < |row| && left > 0
      invariant 0 <= i <= |row|
      invariant out + Emit(row[i..], left) == Emit(row, remaining)
    {
      var n := Min(|row[i]|, left);
      out := out + row[i][..n];
      left := left - n;
      i := i + 1;
    }
  }

  /** The block loop; memory stays bounded by one row. */
  method DecodeBlocks(c: Codec, ins: array<Option<Bytes>>, blocks: int, size: int, k: nat, b: nat)
    returns (r: Result<Bytes, Error>)
    modifies ins
    ensures r == Decode(c, old(ins[..]), blocks, size, k, b)
  {
    var out, remaining, block := [], size, 0;
    ghost var want := Decode(c, ins[..], blocks, size, k, b);
    assert Prepend([], want) == want by {
      if want.Success? {
        assert [] + want.value == want.value;
      }
    }
    while block < blocks
      invariant 0 <= block && (0 < block ==> block <= blocks)
      invariant Prepend(out, Decode(c, ins[..], blocks - block, remaining, k, b)) == want
    {
      ghost var before := ins[..];
      var view, ok := ReadRow(ins, b);
      if !ok {
        return Failure(ShortRead);
      }
      var row := c.complete(view);
      if row.None? || |row.value| < k {
        return Failure(CodecFailure);
      }
      var piece := WriteData(row.value[..k], remaining);
      PrependTwice(out, piece, Decode(c, ins[..], blocks - block - 1, remaining - |piece|, k, b));
      out, remaining, block := out + piece, remaining - |piece|, block + 1;
    }
    assert out + [] == out;
    r := if remaining != 0 then Failure(Truncated(remaining)) else Success(out);
  }

  lemma PrependTwice(a: Bytes, b: Bytes, r: Result<Bytes, Error>)
    ensures Prepend(a, Prepend(b, r)) == Prepend(a + b, r)
  {
    if r.Success? {
      assert a + (b + r.value) == a + b + r.value;
    }
  }

  method Reconstruct(dir: ShardDir, c: Codec, digest: Bytes -> string) returns (r: Result<Bytes, Error>)
    ensures r == Reconstruction(dir, c, digest)
  {
    if dir.manifest.None? {
      return Failure(ManifestUnreadable);
    }
    var m := dir.manifest.value;
    if m.dataShards < 1 || m.parityShards < 0 || m.blockBytes < 0 {
      return Failure(InvalidConfig);
    }
    var ins := new Option<Bytes>[m.dataShards + m.parityShards](_ => None);
    var available := OpenShards(dir, m, digest, ins);
    if available < m.dataShards {
      return Failure(InsufficientShards(available));
    }
    var out := DecodeBlocks(c, ins, m.blocks, m.originalBytes, m.dataShards, m.blockBytes);
    if out.Success? && !EqualFold(digest(out.value), m.objectSha256) {
      return Failure(DigestMismatch);
    }
    r := out;
  }
}
