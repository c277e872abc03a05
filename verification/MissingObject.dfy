/** A repair that has all the shards it asked for and still fails, because the object's file is gone
    (internal/controlplane/repair_distributed.go, overwriteVerified). */
module MissingObject {
  import opened Prelude
  import opened Erasure
  import opened Repair
  import opened ObjectRepair
  import Inventory
  import ParityCodec

  const CFG := Config(2, 1, MIN_BLOCK)
  const SRC: Bytes := [0, 0, 0, 0, 0, 0, 0, 0, 0, 0, 0, 0, 0, 0, 0, 0, 0, 0, 0, 0, 0, 0, 0, 0, 0, 0, 0, 0, 0, 0, 0, 0]

  lemma HexFile(b: Bytes)
    ensures FileOf(Hex(b)) == Hex(b)
  {
    if b != [] {
      Inventory.HexDigitsOnly(b, 0);
      Inventory.HexDigitsOnly(b, |Hex(b)| - 1);
    }
    TrimNothing(Hex(b));
    HexLower(b);
  }

  ghost function Files(): seq<Bytes>
    requires Kernel(ParityCodec.CODEC, CFG)
  {
    RowsShape(ParityCodec.CODEC, SRC, 2, 1, MIN_BLOCK);
    Columns(Rows(ParityCodec.CODEC, SRC, Width(CFG), MIN_BLOCK), 3)
  }

  /** Every shard file is a block long, so none of them is the object itself. */
  lemma FilesLength(i: nat)
    requires Kernel(ParityCodec.CODEC, CFG) && i < 3
    ensures |Files()[i]| == MIN_BLOCK
  {
    var c, w := ParityCodec.CODEC, Width(CFG);
    var rows := Rows(c, SRC, w, MIN_BLOCK);
    RowsUniform(c, SRC, 2, 1, MIN_BLOCK, w);
    assert SRC[32..] == [] && Rows(c, [], w, MIN_BLOCK) == [];
    assert |rows| == 1;
    ColumnLength(rows, i, MIN_BLOCK);
  }

  /** The node holds the three shards under their digests, and nothing else. */
  function Node(files: seq<Bytes>, hash: Bytes -> string): Objects
    requires |files| == 3
  {
    map[hash(files[0]) := files[0], hash(files[1]) := files[1], hash(files[2]) := files[2]]
  }

  lemma NodeHolds(files: seq<Bytes>, hash: Bytes -> string, i: nat)
    requires i < |files| == 3 && Digest(hash)
    ensures hash(files[i]) in Node(files, hash) && Node(files, hash)[hash(files[i])] == files[i]
  {
  }

  function Order(files: seq<Bytes>, hash: Bytes -> string): Payload {
    Payload(hash(SRC), |SRC|, 2, 1, MIN_BLOCK, seq(|files|, i requires 0 <= i < |files| => Entry(hash, i, files[i])))
  }

  lemma AllArrive(files: seq<Bytes>, hash: Bytes -> string)
    requires |files| == 3 && Digest(hash) && forall i :: 0 <= i < 3 ==> FileOf(hash(files[i])) == hash(files[i])
    ensures forall s :: s in Order(files, hash).shards ==> Arrived(Node(files, hash), s, hash)
  {
    var shards := Order(files, hash).shards;
    forall s | s in shards ensures Arrived(Node(files, hash), s, hash) {
      var i :| 0 <= i < 3 && shards[i] == s;
      NodeHolds(files, hash, i);
    }
  }

  lemma OrderAsks(files: seq<Bytes>, hash: Bytes -> string)
    requires Kernel(ParityCodec.CODEC, CFG) && files == Files()
    requires |hash(SRC)| == ObjectRepair.DIGEST_LENGTH && FileOf(hash(SRC)) == hash(SRC)
    ensures Asks(Order(files, hash), ParityCodec.CODEC, hash, SRC, CFG)
  {
  }

  lemma Missing(files: seq<Bytes>, hash: Bytes -> string)
    requires Kernel(ParityCodec.CODEC, CFG) && files == Files() && Digest(hash)
    ensures hash(SRC) !in Node(files, hash)
  {
    if hash(SRC) in Node(files, hash) {
      var i: nat :| i < 3 && hash(SRC) == hash(files[i]);
      FilesLength(i);
    }
  }

  lemma Lawful()
    ensures Kernel(ParityCodec.CODEC, CFG) && Digest(Hex)
  {
    ParityCodec.OneParityIsMaximumDistance(2);
    HexIsDigest();
  }

  /** All three shards have arrived intact, two would do, and nothing is restored. */
  lemma MissingFileNotRestored(p: Payload, objects: Objects)
    requires Kernel(ParityCodec.CODEC, CFG) && p == Order(Files(), Hex) && objects == Node(Files(), Hex)
    ensures Digest(Hex) && Asks(p, ParityCodec.CODEC, Hex, SRC, CFG)
    ensures |p.shards| == 3 && forall s :: s in p.shards ==> Arrived(objects, s, Hex)
    ensures Repaired(objects, p, ParityCodec.CODEC, Hex) == Failure(ObjectFileMissing)
  {
    Lawful();
    var files := Files();
    HexFile(SRC);
    forall i | 0 <= i < 3 ensures FileOf(Hex(files[i])) == Hex(files[i]) {
      HexFile(files[i]);
    }
    OrderAsks(files, Hex);
    Missing(files, Hex);
    AllArrive(files, Hex);
    NeverCreated(objects, p, ParityCodec.CODEC, Hex, SRC, CFG);
  }
}
