/** Where every byte of an object lies in its shard files, and how verification and reconstruction end
    (internal/erasure/erasure.go). */
module ErasureFacts {
  import opened Prelude
  import opened Erasure

  /** At least two data shards, one parity shard, and blocks of 64 KiB. */
  lemma ConfigIff(cfg: Config)
    ensures ValidConfig(cfg) <==> 1 < cfg.dataShards && 0 < cfg.parityShards && 65535 < cfg.blockBytes
  {
  }

  // --- Layout -------------------------------------------------------------------------------------

  /** The object, followed by zeros. */
  function ByteAt(src: Bytes, at: nat): byte {
    if at < |src| then src[at] else 0
  }

  /** `n` blocks of `b` bytes. */
  function Blocks(n: nat, b: nat): nat {
    if n == 0 then 0 else Blocks(n - 1, b) + b
  }

  lemma {:induction false} BlocksIs(n: nat, b: nat)
    ensures Blocks(n, b) == n * b
  {
    if n > 0 {
      BlocksIs(n - 1, b);
    }
  }

  lemma {:induction false} BlocksGrow(m: nat, n: nat, b: nat)
    requires m <= n
    ensures Blocks(m, b) <= Blocks(n, b)
  {
    if m < n {
      BlocksGrow(m, n - 1, b);
    }
  }

  lemma {:induction false} PieceAt(block: Bytes, b: nat, k: nat, i: nat, t: nat)
    requires 0 < b && |block| == Blocks(k, b) && i < k && t < b
    ensures i < |Split(block, b)| && Blocks(i, b) + t < |block| && Split(block, b)[i][t] == block[Blocks(i, b) + t]
    decreases i
  {
    BlocksGrow(1, k, b);
    assert Split(block, b) == [block[..b]] + Split(block[b..], b);
    if i > 0 {
      PieceAt(block[b..], b, k - 1, i - 1, t);
    }
  }

  lemma {:induction false} SplitLength(block: Bytes, b: nat, k: nat)
    requires 0 < b && |block| == Blocks(k, b)
    ensures |Split(block, b)| == k
  {
    if k > 0 {
      BlocksGrow(1, k, b);
      SplitLength(block[b..], b, k - 1);
    }
  }

  /** The pieces of one stripe. */
  lemma StripeByte(c: Codec, src: Bytes, k: nat, b: nat, w: nat, i: nat, t: nat)
    requires src != [] && 0 < b && 0 < w == Blocks(k, b) && i < k && t < b
    ensures var row := Row(c, Pad(src[..Min(|src|, w)], w), b);
            i < |row| && |row[i]| == b && row[i][t] == ByteAt(src, Blocks(i, b) + t)
  {
    var block := Pad(src[..Min(|src|, w)], w);
    SplitLength(block, b, k);
    PieceAt(block, b, k, i, t);
    assert Row(c, block, b)[i] == Split(block, b)[i];
  }

  lemma {:induction false} ColumnAt(rows: seq<seq<Bytes>>, i: nat, b: nat, j: nat, t: nat)
    requires (forall r :: r in rows ==> i < |r|) && j < |rows| && t < b
    requires forall x :: 0 <= x <= j ==> |rows[x][i]| == b
    ensures Blocks(j, b) + t < |Column(rows, i)| && Column(rows, i)[Blocks(j, b) + t] == rows[j][i][t]
    decreases j
  {
    assert rows[0] in rows && Column(rows, i) == rows[0][i] + Column(rows[1..], i);
    if j > 0 {
      ColumnAt(rows[1..], i, b, j - 1, t);
    }
  }

  lemma {:induction false} StripeAt(c: Codec, src: Bytes, w: nat, b: nat, j: nat)
    requires 0 < w && 0 < b && j < |Rows(c, src, w, b)|
    ensures Blocks(j, w) < |src|
    ensures var rest := src[Blocks(j, w)..]; Rows(c, src, w, b)[j] == Row(c, Pad(rest[..Min(|rest|, w)], w), b)
    decreases j
  {
    if j == 0 {
      assert src[0..] == src;
    } else {
      var rest := src[Min(|src|, w)..];
      assert Rows(c, src, w, b)[j] == Rows(c, rest, w, b)[j - 1];
      StripeAt(c, rest, w, b, j - 1);
      assert rest[Blocks(j - 1, w)..] == src[Blocks(j, w)..];
    }
  }

  lemma StripeOf(c: Codec, src: Bytes, k: nat, b: nat, w: nat, i: nat, j: nat, t: nat)
    requires 0 < b && 0 < w == Blocks(k, b) && i < k && t < b && j < |Rows(c, src, w, b)|
    ensures var row := Rows(c, src, w, b)[j];
            i < |row| && |row[i]| == b && row[i][t] == ByteAt(src, Blocks(j, w) + Blocks(i, b) + t)
  {
    StripeAt(c, src, w, b, j);
    StripeByte(c, src[Blocks(j, w)..], k, b, w, i, t);
  }

  /** Stripe by stripe, data shard `i` holds piece `i`: byte `t` of its block `j` is the byte of the object at
      `j` stripes, `i` blocks and `t`, or a zero behind the object's end. */
  lemma DataByte(c: Codec, src: Bytes, n: nat, k: nat, b: nat, w: nat, i: nat, j: nat, t: nat)
    requires 0 < b && 0 < w == Blocks(k, b) && i < k <= n && t < b
    requires RowsOf(Rows(c, src, w, b), n) && j < |Rows(c, src, w, b)|
    ensures var file := Column(Rows(c, src, w, b), i);
            Blocks(j, b) + t < |file| && file[Blocks(j, b) + t] == ByteAt(src, Blocks(j, w) + Blocks(i, b) + t)
  {
    var rows := Rows(c, src, w, b);
    forall x | 0 <= x <= j ensures |rows[x][i]| == b {
      StripeOf(c, src, k, b, w, i, x, t);
    }
    StripeOf(c, src, k, b, w, i, j, t);
    ColumnAt(rows, i, b, j, t);
  }

  /** As many stripes as it takes to hold the object. */
  lemma {:induction false} StripeCount(c: Codec, src: Bytes, w: nat, b: nat)
    requires 0 < w && 0 < b
    ensures var rows := |Rows(c, src, w, b)|;
            |src| <= Blocks(rows, w) && (0 < rows ==> Blocks(rows - 1, w) < |src|)
    decreases |src|
  {
    if src != [] {
      StripeCount(c, src[Min(|src|, w)..], w, b);
    }
  }

  lemma ByteOfFile(c: Codec, src: Bytes, n: nat, k: nat, b: nat, w: nat, i: nat, j: nat, t: nat)
    requires 0 < b && 0 < w == Blocks(k, b) && i < k <= n && t < b
    requires RowsOf(Rows(c, src, w, b), n) && Blocks(j, w) < |src|
    ensures var file := Column(Rows(c, src, w, b), i);
            Blocks(j, b) + t < |file| && file[Blocks(j, b) + t] == ByteAt(src, Blocks(j, w) + Blocks(i, b) + t)
  {
    StripeCount(c, src, w, b);
    var rows := |Rows(c, src, w, b)|;
    if rows <= j {
      BlocksGrow(rows, j, w);
    }
    DataByte(c, src, n, k, b, w, i, j, t);
  }

  lemma FileOf(c: Codec, digest: Bytes -> string, src: Bytes, cfg: Config, i: nat)
    requires Kernel(c, cfg) && i < cfg.dataShards
    ensures RowsOf(Rows(c, src, Width(cfg), cfg.blockBytes), cfg.dataShards + cfg.parityShards)
    ensures var dir := Encoded(c, digest, src, cfg);
            i in dir.files && dir.files[i] == Column(Rows(c, src, Width(cfg), cfg.blockBytes), i)
  {
    RowsShape(c, src, cfg.dataShards, cfg.parityShards, cfg.blockBytes);
  }

  /** The shard files of an encoded object, byte by byte. */
  lemma EncodedBytes(c: Codec, digest: Bytes -> string, src: Bytes, cfg: Config, i: nat, j: nat, t: nat, block: nat, stripe: nat)
    requires Kernel(c, cfg) && i < cfg.dataShards && t < cfg.blockBytes
    requires block == j * cfg.blockBytes && stripe == j * Width(cfg) < |src|
    ensures var dir := Encoded(c, digest, src, cfg);
            && i in dir.files && block + t < |dir.files[i]|
            && dir.files[i][block + t] == ByteAt(src, stripe + i * cfg.blockBytes + t)
  {
    var k, b, w := cfg.dataShards, cfg.blockBytes, Width(cfg);
    FileOf(c, digest, src, cfg, i);
    BlocksIs(k, b);
    BlocksIs(i, b);
    BlocksIs(j, b);
    BlocksIs(j, w);
    ByteOfFile(c, src, k + cfg.parityShards, k, b, w, i, j, t);
  }

  // --- Verification ---------------------------------------------------------------------------------

  /** A shard file verifies when it is there with the listed size and the listed digest, in either letter case. */
  lemma CountOne(dir: ShardDir, sh: Shard, digest: Bytes -> string)
    ensures CountVerified(dir, [sh], digest)
         == if sh.index in dir.files && |dir.files[sh.index]| == sh.bytes && Lower(digest(dir.files[sh.index])) == Lower(sh.sha256)
            then 1 else 0
  {
    assert CountVerified(dir, [sh][1..], digest) == 0;
  }

  lemma {:induction false} CountSplit(dir: ShardDir, front: seq<Shard>, back: seq<Shard>, digest: Bytes -> string)
    ensures CountVerified(dir, front + back, digest) == CountVerified(dir, front, digest) + CountVerified(dir, back, digest)
  {
    if front == [] {
      assert front + back == back;
    } else {
      CountSplit(dir, front[1..], back, digest);
      assert (front + back)[1..] == front[1..] + back;
    }
  }

  // --- Reconstruction -----------------------------------------------------------------------------------

  lemma {:induction false} EmitLength(row: seq<Bytes>, remaining: int)
    ensures |Emit(row, remaining)| <= Max(remaining, 0)
  {
    if row != [] && 0 < remaining {
      EmitLength(row[1..], remaining - Min(|row[0]|, remaining));
    }
  }

  /** What comes out of the block loop has the length asked for. */
  lemma {:induction false} DecodeLength(c: Codec, ins: seq<Option<Bytes>>, blocks: int, remaining: int, k: nat, b: nat)
    ensures var r := Decode(c, ins, blocks, remaining, k, b);
            r.Success? ==> |r.value| == remaining
    decreases blocks
  {
    if 0 < blocks && Readable(ins, b) {
      var row := c.complete(Heads(ins, b));
      if row.Some? && k <= |row.value| {
        var out := Emit(row.value[..k], remaining);
        DecodeLength(c, Tails(ins, b), blocks - 1, remaining - |out|, k, b);
      }
    }
  }

  /** The files that count: listed, the last entry of an index for it, present, with the listed digest. */
  ghost predicate Usable(dir: ShardDir, shards: seq<Shard>, i: int, digest: Bytes -> string) {
    exists n :: 0 <= n < |shards| && shards[n].index == i && i in dir.files && Lower(digest(dir.files[i])) == Lower(shards[n].sha256)
                && forall l :: n < l < |shards| ==> shards[l].index != i
  }

  lemma {:induction false} EntryIsLast(shards: seq<Shard>, n: nat)
    requires n < |shards| && forall l :: n < l < |shards| ==> shards[l].index != shards[n].index
    ensures EntryOf(shards, shards[n].index) == Some(shards[n])
    decreases |shards|
  {
    var last := |shards| - 1;
    if n < last {
      EntryIsLast(shards[..last], n);
    }
  }

  lemma {:induction false} EntryStands(shards: seq<Shard>, i: int) returns (n: nat)
    requires EntryOf(shards, i).Some?
    ensures n < |shards| && shards[n].index == i && EntryOf(shards, i) == Some(shards[n])
    ensures forall l :: n < l < |shards| ==> shards[l].index != i
  {
    var last := |shards| - 1;
    if shards[last].index == i {
      n := last;
    } else {
      n := EntryStands(shards[..last], i);
    }
  }

  lemma AcceptedIff(dir: ShardDir, shards: seq<Shard>, i: int, digest: Bytes -> string)
    ensures Accepted(dir, shards, i, digest).Some? <==> Usable(dir, shards, i, digest)
    ensures Accepted(dir, shards, i, digest).Some? ==> i in dir.files && Accepted(dir, shards, i, digest).value == dir.files[i]
  {
    if EntryOf(shards, i).Some? {
      var n := EntryStands(shards, i);
    }
    if Usable(dir, shards, i, digest) {
      var n :| 0 <= n < |shards| && shards[n].index == i && i in dir.files && Lower(digest(dir.files[i])) == Lower(shards[n].sha256)
               && forall l :: n < l < |shards| ==> shards[l].index != i;
      EntryIsLast(shards, n);
    }
  }

  lemma {:induction false} PresentIsCount(view: seq<Option<Bytes>>, here: set<int>)
    requires forall i :: i in here <==> 0 <= i < |view| && view[i].Some?
    ensures Present(view) == |here|
    decreases |view|
  {
    if view == [] {
      assert here == {} by {
        forall i ensures i !in here {
        }
      }
    } else {
      var n := |view| - 1;
      var front := here - {n};
      PresentIsCount(view[..n], front);
      PresentLast(view[..n], view[n]);
      assert view == view[..n] + [view[n]];
      if n in here {
        assert here == front + {n};
      } else {
        assert here == front;
      }
    }
  }

  lemma {:induction false} PresentLast(view: seq<Option<Bytes>>, last: Option<Bytes>)
    ensures Present(view + [last]) == Present(view) + if last.Some? then 1 else 0
  {
    if view == [] {
      assert (view + [last])[1..] == [];
    } else {
      PresentLast(view[1..], last);
      assert (view + [last])[1..] == view[1..] + [last];
    }
  }

  /** How reconstruction ends, from the directory alone: without a manifest, with shard counts that make no code, or with
      too few files that count, at once; and whatever it returns has the object's length and digest. */
  lemma ReconstructionEnds(dir: ShardDir, c: Codec, digest: Bytes -> string, here: set<int>)
    requires dir.manifest.Some? ==>
               forall i :: i in here <==> 0 <= i < dir.manifest.value.dataShards + dir.manifest.value.parityShards
                                          && Usable(dir, dir.manifest.value.shards, i, digest)
    ensures var r := Reconstruction(dir, c, digest);
            if dir.manifest == None then r == Failure(ManifestUnreadable)
            else
              var m := dir.manifest.value;
              && (m.dataShards <= 0 || m.parityShards <= -1 || m.blockBytes <= -1 ==> r == Failure(InvalidConfig))
              && (0 < m.dataShards && -1 < m.parityShards && -1 < m.blockBytes && |here| < m.dataShards ==>
                    r == Failure(InsufficientShards(|here|)))
              && (r.Success? ==>
                    && 0 < m.dataShards && -1 < m.parityShards && -1 < m.blockBytes && m.dataShards <= |here|
                    && |r.value| == m.originalBytes && Lower(digest(r.value)) == Lower(m.objectSha256))
  {
    if dir.manifest.Some? {
      var m := dir.manifest.value;
      if 0 < m.dataShards && -1 < m.parityShards {
        var ins := Opened(dir, m, digest);
        forall i ensures i in here <==> 0 <= i < |ins| && ins[i].Some? {
          if 0 <= i < |ins| {
            AcceptedIff(dir, m.shards, i, digest);
            assert ins[i] == Accepted(dir, m.shards, i, digest);
          }
        }
        PresentIsCount(ins, here);
        if -1 < m.blockBytes {
          DecodeLength(c, ins, m.blocks, m.originalBytes, m.dataShards, m.blockBytes);
        }
      }
    }
  }
}
