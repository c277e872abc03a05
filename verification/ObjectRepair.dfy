/** Rebuilding a corrupt object in place from the shards that reached the node
    (internal/controlplane/repair_distributed.go, repairObject). */
module ObjectRepair {
  import opened Prelude
  import opened Finite
  import opened Erasure
  import opened ErasureRoundTrip
  import opened Repair

  const DIGEST_LENGTH := 64

  /** The object files of a node, by digest. */
  type Objects = map<string, Bytes>

  datatype RepairError = InvalidPayload | NotAvailableYet(valid: int) | Reconstruction(error: Error) | ObjectFileMissing

  /** The file a digest names. */
  function FileOf(digest: string): string {
    Lower(TrimSpace(digest))
  }

  predicate Arrived(objects: Objects, s: Shard, hash: Bytes -> string) {
    FileOf(s.sha256) in objects && EqualFold(hash(objects[FileOf(s.sha256)]), s.sha256)
  }

  /** The shards that are on the node and intact, as the local manifest lists them. */
  function Valid(objects: Objects, shards: seq<Shard>, hash: Bytes -> string): seq<Shard> {
    if shards == [] then []
    else
      var s := shards[|shards| - 1];
      var front := Valid(objects, shards[..|shards| - 1], hash);
      if Arrived(objects, s, hash) then front + [Shard(s.index, |objects[FileOf(s.sha256)]|, s.sha256)] else front
  }

  function Linked(objects: Objects, shards: seq<Shard>, hash: Bytes -> string): map<int, Bytes> {
    if shards == [] then map[]
    else
      var s := shards[|shards| - 1];
      var front := Linked(objects, shards[..|shards| - 1], hash);
      if Arrived(objects, s, hash) then front[s.index := objects[FileOf(s.sha256)]] else front
  }

  /** The number of blocks, recomputed from the shard sizes. */
  function Blocks(valid: seq<Shard>, b: int): (n: nat)
    requires 0 < b
  {
    if valid == [] then 0
    else Max(Blocks(valid[..|valid| - 1], b), valid[|valid| - 1].bytes / b)
  }

  /** The directory the shards are gathered in. */
  function Gathered(objects: Objects, p: Payload, hash: Bytes -> string): ShardDir
    requires 0 < p.blockBytes
  {
    var valid := Valid(objects, p.shards, hash);
    ShardDir(Some(Manifest(p.digest, p.originalBytes, p.dataShards, p.parityShards, p.blockBytes, Blocks(valid, p.blockBytes), valid)),
             Linked(objects, p.shards, hash))
  }

  /** What a repair writes over the object, or why it writes nothing. */
  function Repaired(objects: Objects, p: Payload, c: Codec, hash: Bytes -> string): Result<Bytes, RepairError> {
    if |p.digest| != DIGEST_LENGTH || p.dataShards < 2 || p.blockBytes <= 0 then Failure(InvalidPayload)
    else if |Valid(objects, p.shards, hash)| < p.dataShards then Failure(NotAvailableYet(|Valid(objects, p.shards, hash)|))
    else
      match Erasure.Reconstruction(Gathered(objects, p, hash), c, hash)
      case Failure(e) => Failure(RepairError.Reconstruction(e))
      case Success(content) => if FileOf(p.digest) in objects then Success(content) else Failure(ObjectFileMissing)
  }

  class Node {
    var objects: Objects

    constructor (initial: Objects)
      ensures objects == initial
    {
      objects := initial;
    }

    method Gather(p: Payload, hash: Bytes -> string) returns (dir: ShardDir, valid: nat)
      requires 0 < p.blockBytes
      ensures dir == Gathered(objects, p, hash) && valid == |Valid(objects, p.shards, hash)|
    {
      var shards: seq<Shard>, files: map<int, Bytes>, blocks := [], map[], 0;
      valid := 0;
      for i := 0 to |p.shards|
        invariant shards == Valid(objects, p.shards[..i], hash) && valid == |shards|
        invariant files == Linked(objects, p.shards[..i], hash)
        invariant blocks == Blocks(shards, p.blockBytes)
      {
        assert p.shards[..i + 1][..i] == p.shards[..i];
        var s := p.shards[i];
        var name := FileOf(s.sha256);
        if name in objects && EqualFold(hash(objects[name]), s.sha256) {
          var n := |objects[name]|;
          assert (shards + [Shard(s.index, n, s.sha256)])[..|shards|] == shards;
          shards, files, valid := shards + [Shard(s.index, n, s.sha256)], files[s.index := objects[name]], valid + 1;
          if n / p.blockBytes > blocks {
            blocks := n / p.blockBytes;
          }
        }
      }
      assert p.shards[..|p.shards|] == p.shards;
      dir := ShardDir(Some(Manifest(p.digest, p.originalBytes, p.dataShards, p.parityShards, p.blockBytes, blocks, shards)), files);
    }

    /** The object file is truncated and rewritten, never created. */
    method RepairObject(p: Payload, c: Codec, hash: Bytes -> string) returns (r: Result<Bytes, RepairError>)
      modifies this
      ensures r == Repaired(old(objects), p, c, hash)
      ensures objects == if r.Success? then old(objects)[FileOf(p.digest) := r.value] else old(objects)
    {
      if |p.digest| != DIGEST_LENGTH || p.dataShards < 2 || p.blockBytes <= 0 {
        return Failure(InvalidPayload);
      }
      var dir, valid := Gather(p, hash);
      if valid < p.dataShards {
        return Failure(NotAvailableYet(valid));
      }
      var out := Erasure.Reconstruct(dir, c, hash);
      if out.Failure? {
        return Failure(RepairError.Reconstruction(out.error));
      }
      if FileOf(p.digest) !in objects {
        return Failure(ObjectFileMissing);
      }
      objects := objects[FileOf(p.digest) := out.value];
      r := Success(out.value);
    }
  }

  // --- Correctness -----------------------------------------------------------------------

  /** The payload asks for shards of the encoded object, each index at most once. */
  ghost predicate Asks(p: Payload, c: Codec, hash: Bytes -> string, src: Bytes, cfg: Config)
    requires Kernel(c, cfg)
  {
    var full := Encoded(c, hash, src, cfg);
    && p.digest == hash(src) && |p.digest| == DIGEST_LENGTH && FileOf(p.digest) == p.digest
    && p.originalBytes == |src| && p.dataShards == cfg.dataShards && p.parityShards == cfg.parityShards && p.blockBytes == cfg.blockBytes
    && (forall i, j :: 0 <= i < j < |p.shards| ==> p.shards[i].index < p.shards[j].index)
    && forall s :: s in p.shards ==> s.index in full.files && s.sha256 == hash(full.files[s.index])
  }

  /** Indices of the requested shards that are on the node, intact. */
  ghost function ArrivedIndices(objects: Objects, shards: seq<Shard>, hash: Bytes -> string): set<int> {
    set s | s in shards && Arrived(objects, s, hash) :: s.index
  }

  /** The requested shards name columns of the encoded object, in ascending order. */
  ghost predicate Names(shards: seq<Shard>, columns: seq<Bytes>, hash: Bytes -> string) {
    && (forall i, j :: 0 <= i < j < |shards| ==> shards[i].index < shards[j].index)
    && forall s :: s in shards ==> 0 <= s.index < |columns| && s.sha256 == hash(columns[s.index])
  }

  /** The manifest entries and files are the columns at the indices `here`. */
  ghost predicate Matches(here: set<int>, valid: seq<Shard>, files: map<int, Bytes>, columns: seq<Bytes>, hash: Bytes -> string) {
    && |valid| == |here| && files.Keys == here
    && (forall i :: i in here ==> 0 <= i < |columns|)
    && (forall i :: i in here ==> files[i] == columns[i] && EntryOf(valid, i) == Some(Entry(hash, i, columns[i])))
    && (forall i :: i !in here ==> EntryOf(valid, i) == None)
    && forall v :: v in valid ==> v.index in here && v.bytes == |columns[v.index]|
  }

  /** What is gathered are the columns of the shards that arrived. */
  ghost predicate Gathers(objects: Objects, shards: seq<Shard>, columns: seq<Bytes>, hash: Bytes -> string) {
    Matches(ArrivedIndices(objects, shards, hash), Valid(objects, shards, hash), Linked(objects, shards, hash), columns, hash)
  }

  lemma MatchesStep(here: set<int>, valid: seq<Shard>, files: map<int, Bytes>, columns: seq<Bytes>, hash: Bytes -> string, i: int)
    requires Matches(here, valid, files, columns, hash) && i !in here && 0 <= i < |columns|
    ensures Matches(here + {i}, valid + [Entry(hash, i, columns[i])], files[i := columns[i]], columns, hash)
  {
    EntryAppended(valid, Entry(hash, i, columns[i]));
  }

  lemma ArrivedStep(objects: Objects, front: seq<Shard>, s: Shard, hash: Bytes -> string)
    ensures ArrivedIndices(objects, front + [s], hash)
         == ArrivedIndices(objects, front, hash) + if Arrived(objects, s, hash) then {s.index} else {}
  {
    assert forall x :: x in front + [s] <==> x in front || x == s;
    assert s in front + [s];
  }

  lemma GathersStep(objects: Objects, front: seq<Shard>, s: Shard, columns: seq<Bytes>, hash: Bytes -> string)
    requires Gathers(objects, front, columns, hash) && Digest(hash)
    requires 0 <= s.index < |columns| && s.sha256 == hash(columns[s.index])
    requires s.index !in ArrivedIndices(objects, front, hash)
    ensures Gathers(objects, front + [s], columns, hash)
  {
    assert (front + [s])[..|front|] == front;
    ArrivedStep(objects, front, s, hash);
    if Arrived(objects, s, hash) {
      var content := objects[FileOf(s.sha256)];
      DigestFold(hash, content, columns[s.index]);
      GathersOneMore(objects, front, s, columns, hash);
    } else {
      assert ArrivedIndices(objects, front + [s], hash) == ArrivedIndices(objects, front, hash);
    }
  }

  lemma GathersOneMore(objects: Objects, front: seq<Shard>, s: Shard, columns: seq<Bytes>, hash: Bytes -> string)
    requires Gathers(objects, front, columns, hash) && Arrived(objects, s, hash)
    requires 0 <= s.index < |columns| && objects[FileOf(s.sha256)] == columns[s.index] && s.sha256 == hash(columns[s.index])
    requires s.index !in ArrivedIndices(objects, front, hash)
    ensures Gathers(objects, front + [s], columns, hash)
  {
    ArrivedStep(objects, front, s, hash);
    assert (front + [s])[..|front|] == front;
    MatchesStep(ArrivedIndices(objects, front, hash), Valid(objects, front, hash), Linked(objects, front, hash), columns, hash, s.index);
  }

  lemma EntryAppended(valid: seq<Shard>, v: Shard)
    ensures forall i :: EntryOf(valid + [v], i) == if i == v.index then Some(v) else EntryOf(valid, i)
  {
    assert (valid + [v])[..|valid|] == valid;
  }

  lemma {:induction false} GathersAll(objects: Objects, shards: seq<Shard>, columns: seq<Bytes>, hash: Bytes -> string)
    requires Names(shards, columns, hash) && Digest(hash)
    ensures Gathers(objects, shards, columns, hash)
  {
    if shards == [] {
      assert ArrivedIndices(objects, shards, hash) == {};
    } else {
      var front, s := shards[..|shards| - 1], shards[|shards| - 1];
      assert shards == front + [s];
      GathersAll(objects, front, columns, hash);
      assert s in shards;
      GathersStep(objects, front, s, columns, hash);
    }
  }

  // --- Shard sizes give the number of blocks back -------------------------------------------

  lemma {:induction false} RowsUniform(c: Codec, src: Bytes, k: nat, m: nat, b: nat, w: nat)
    requires MaximumDistance(c, k, m) && 0 < b && 0 < w == k * b
    ensures forall r :: r in Rows(c, src, w, b) ==> |r| == k + m && Uniform(r, b)
    decreases |src|
  {
    if src != [] {
      var n := Min(|src|, w);
      RowUniform(c, Pad(src[..n], w), k, m, b);
      RowsUniform(c, src[n..], k, m, b, w);
    }
  }

  lemma {:induction false} ColumnLength(rows: seq<seq<Bytes>>, i: nat, b: nat)
    requires forall r :: r in rows ==> i < |r| && Uniform(r, b)
    ensures |Column(rows, i)| == |rows| * b
  {
    if rows != [] {
      assert rows[0] in rows;
      ColumnLength(rows[1..], i, b);
      OneMore(|rows[1..]|, b);
    }
  }

  lemma OneMore(n: nat, b: nat)
    ensures (n + 1) * b == b + n * b
  {
  }

  lemma ExactQuotient(n: nat, b: nat)
    requires 0 < b
    ensures (n * b) / b == n
  {
    DivUnique(n * b, b, n, 0);
  }

  lemma {:induction false} BlocksRecovered(valid: seq<Shard>, n: nat, b: nat)
    requires 0 < b && forall v :: v in valid ==> v.bytes == n * b
    ensures Blocks(valid, b) == if valid == [] then 0 else n
  {
    if valid != [] {
      var front, last := valid[..|valid| - 1], valid[|valid| - 1];
      assert valid == front + [last];
      assert last in valid;
      ExactQuotient(n, b);
      BlocksRecovered(front, n, b);
    }
  }

  // --- The theorem ------------------------------------------------------------------------------

  lemma AcceptedGathered(objects: Objects, p: Payload, columns: seq<Bytes>, i: nat, hash: Bytes -> string)
    requires 0 < p.blockBytes && Gathers(objects, p.shards, columns, hash)
    ensures Accepted(Gathered(objects, p, hash), Valid(objects, p.shards, hash), i, hash)
         == if i in ArrivedIndices(objects, p.shards, hash) then Some(columns[i]) else None
  {
  }

  lemma OpenedPointwise(objects: Objects, p: Payload, columns: seq<Bytes>, hash: Bytes -> string)
    requires 0 < p.blockBytes && 0 <= p.dataShards && 0 <= p.parityShards && |columns| == p.dataShards + p.parityShards
    requires Gathers(objects, p.shards, columns, hash)
    ensures var dir := Gathered(objects, p, hash);
            var ins := Opened(dir, dir.manifest.value, hash);
            && |ins| == |columns|
            && forall i :: 0 <= i < |columns| ==> ins[i] == if i in ArrivedIndices(objects, p.shards, hash) then Some(columns[i]) else None
  {
    var dir := Gathered(objects, p, hash);
    var ins := Opened(dir, dir.manifest.value, hash);
    forall i | 0 <= i < |columns| ensures ins[i] == if i in ArrivedIndices(objects, p.shards, hash) then Some(columns[i]) else None {
      AcceptedGathered(objects, p, columns, i, hash);
    }
  }

  /** The open shard files stream the columns that arrived. */
  lemma OpenedGathered(objects: Objects, p: Payload, rows: seq<seq<Bytes>>, columns: seq<Bytes>, hash: Bytes -> string)
    requires 0 < p.blockBytes && 0 <= p.dataShards && 0 <= p.parityShards
    requires |columns| == p.dataShards + p.parityShards && RowsOf(rows, |columns|) && columns == Columns(rows, |columns|)
    requires Gathers(objects, p.shards, columns, hash)
    ensures var dir := Gathered(objects, p, hash);
            var ins := Opened(dir, dir.manifest.value, hash);
            Streams(ins, rows) && |ins| == |columns| && Present(ins) == |ArrivedIndices(objects, p.shards, hash)|
  {
    OpenedPointwise(objects, p, columns, hash);
    var dir := Gathered(objects, p, hash);
    StreamsOf(Opened(dir, dir.manifest.value, hash), rows, columns, ArrivedIndices(objects, p.shards, hash));
  }

  lemma StreamsOf(ins: seq<Option<Bytes>>, rows: seq<seq<Bytes>>, columns: seq<Bytes>, here: set<int>)
    requires |ins| == |columns| && RowsOf(rows, |columns|) && columns == Columns(rows, |columns|)
    requires forall i :: i in here ==> 0 <= i < |columns|
    requires forall i :: 0 <= i < |columns| ==> ins[i] == if i in here then Some(columns[i]) else None
    ensures Streams(ins, rows) && Present(ins) == |here|
  {
    PresentCounts(ins, 0);
    assert ins[0..] == ins;
    assert AliveFrom(ins, 0) == here;
  }

  lemma BlockCount(objects: Objects, shards: seq<Shard>, c: Codec, src: Bytes, k: nat, m: nat, b: nat, w: nat, hash: Bytes -> string)
    requires MaximumDistance(c, k, m) && 0 < b && 0 < w == k * b && RowsOf(Rows(c, src, w, b), k + m)
    requires Gathers(objects, shards, Columns(Rows(c, src, w, b), k + m), hash)
    requires Valid(objects, shards, hash) != []
    ensures Blocks(Valid(objects, shards, hash), b) == |Rows(c, src, w, b)|
  {
    var rows := Rows(c, src, w, b);
    RowsUniform(c, src, k, m, b, w);
    var valid := Valid(objects, shards, hash);
    forall v | v in valid ensures v.bytes == |rows| * b {
      ColumnLength(rows, v.index, b);
    }
    BlocksRecovered(valid, |rows|, b);
  }

  lemma AsksNames(p: Payload, c: Codec, hash: Bytes -> string, src: Bytes, cfg: Config)
    requires Kernel(c, cfg) && Asks(p, c, hash, src, cfg)
    ensures RowsOf(Rows(c, src, Width(cfg), cfg.blockBytes), cfg.dataShards + cfg.parityShards)
    ensures Names(p.shards, Columns(Rows(c, src, Width(cfg), cfg.blockBytes), cfg.dataShards + cfg.parityShards), hash)
  {
    RowsShape(c, src, cfg.dataShards, cfg.parityShards, cfg.blockBytes);
  }

  lemma GatheredDecodes(objects: Objects, p: Payload, c: Codec, hash: Bytes -> string, src: Bytes, k: nat, m: nat, b: nat, w: nat)
    requires MaximumDistance(c, k, m) && 1 <= k && 0 < b && 0 < w == k * b && RowsOf(Rows(c, src, w, b), k + m)
    requires p == Payload(hash(src), |src|, k, m, b, p.shards)
    requires Gathers(objects, p.shards, Columns(Rows(c, src, w, b), k + m), hash)
    requires |ArrivedIndices(objects, p.shards, hash)| >= k
    ensures Erasure.Reconstruction(Gathered(objects, p, hash), c, hash) == Success(src)
  {
    var rows := Rows(c, src, w, b);
    OpenedGathered(objects, p, rows, Columns(rows, k + m), hash);
    BlockCount(objects, p.shards, c, src, k, m, b, w, hash);
    var dir := Gathered(objects, p, hash);
    var ins := Opened(dir, dir.manifest.value, hash);
    DecodeRows(c, src, ins, k, m, b, w);
    ReconstructionOf(dir, p, c, hash, src, ins, |rows|);
  }

  lemma ReconstructionOf(dir: ShardDir, p: Payload, c: Codec, hash: Bytes -> string, src: Bytes, ins: seq<Option<Bytes>>, blocks: nat)
    requires 1 <= p.dataShards && 0 <= p.parityShards && 0 < p.blockBytes
    requires dir.manifest.Some? && p.digest == hash(src)
    requires dir.manifest.value ==
             Manifest(p.digest, p.originalBytes, p.dataShards, p.parityShards, p.blockBytes, blocks, dir.manifest.value.shards)
    requires ins == Opened(dir, dir.manifest.value, hash) && p.dataShards <= Present(ins)
    requires Decode(c, ins, blocks, p.originalBytes, p.dataShards, p.blockBytes) == Success(src)
    ensures Erasure.Reconstruction(dir, c, hash) == Success(src)
  {
  }

  lemma GatheredReconstructs(objects: Objects, p: Payload, c: Codec, hash: Bytes -> string, src: Bytes, cfg: Config)
    requires Kernel(c, cfg) && Digest(hash) && Asks(p, c, hash, src, cfg)
    ensures |Valid(objects, p.shards, hash)| == |ArrivedIndices(objects, p.shards, hash)|
    ensures |ArrivedIndices(objects, p.shards, hash)| >= cfg.dataShards ==>
              Erasure.Reconstruction(Gathered(objects, p, hash), c, hash) == Success(src)
  {
    AsksNames(p, c, hash, src, cfg);
    GathersAll(objects, p.shards, Columns(Rows(c, src, Width(cfg), cfg.blockBytes), cfg.dataShards + cfg.parityShards), hash);
    if |ArrivedIndices(objects, p.shards, hash)| >= cfg.dataShards {
      GatheredDecodes(objects, p, c, hash, src, cfg.dataShards, cfg.parityShards, cfg.blockBytes, Width(cfg));
    }
  }

  /** A repair succeeds exactly when enough of its shards are on the node and the damaged file is
      still there, and then it writes the original bytes; the block count, which the payload does
      not carry, is recovered from the shard sizes. */
  lemma RepairRestores(objects: Objects, p: Payload, c: Codec, hash: Bytes -> string, src: Bytes, cfg: Config)
    requires Kernel(c, cfg) && Digest(hash) && Asks(p, c, hash, src, cfg)
    ensures var here := |ArrivedIndices(objects, p.shards, hash)|;
            Repaired(objects, p, c, hash)
              == if here < cfg.dataShards then Failure(NotAvailableYet(here))
                 else if p.digest !in objects then Failure(ObjectFileMissing)
                 else Success(src)
  {
    GatheredReconstructs(objects, p, c, hash, src, cfg);
  }

  /** However many shards have arrived, a repair never creates the file of an object. */
  lemma NeverCreated(objects: Objects, p: Payload, c: Codec, hash: Bytes -> string, src: Bytes, cfg: Config)
    requires Kernel(c, cfg) && Digest(hash) && Asks(p, c, hash, src, cfg) && p.digest !in objects
    requires cfg.dataShards <= |p.shards| && forall s :: s in p.shards ==> Arrived(objects, s, hash)
    ensures Repaired(objects, p, c, hash) == Failure(ObjectFileMissing)
  {
    ArrivedAll(objects, p.shards, hash);
    RepairRestores(objects, p, c, hash, src, cfg);
  }

  /** The shard table tells the truth about the encoded object. */
  ghost predicate Truthful(copies: seq<ShardCopy>, c: Codec, hash: Bytes -> string, src: Bytes, cfg: Config)
    requires Kernel(c, cfg)
  {
    var full := Encoded(c, hash, src, cfg);
    forall r :: r in copies ==> r.index in full.files && r.sha256 == hash(full.files[r.index])
  }

  /** From schedule to restored object: the scheduled payload holds just enough shards, so the repair
      succeeds once every one of them is on the node. */
  lemma ScheduledRepair(copies: seq<ShardCopy>, online: set<string>, target: string, shipments: seq<Shipment>,
                        objects: Objects, p: Payload, c: Codec, hash: Bytes -> string, src: Bytes, cfg: Config)
    requires Kernel(c, cfg) && Digest(hash) && Truthful(copies, c, hash, src, cfg)
    requires |hash(src)| == DIGEST_LENGTH && FileOf(hash(src)) == hash(src)
    requires p == Payload(hash(src), |src|, cfg.dataShards, cfg.parityShards, cfg.blockBytes, p.shards)
    requires cfg.dataShards <= |Reachable(copies, online)|
    requires Chosen(copies, online, target, cfg.dataShards, p.shards, shipments)
    ensures |p.shards| == cfg.dataShards
    ensures Repaired(objects, p, c, hash) == Success(src)
       <==> (forall s :: s in p.shards ==> Arrived(objects, s, hash)) && hash(src) in objects
  {
    ChosenAsks(copies, online, target, shipments, p, c, hash, src, cfg);
    RepairRestores(objects, p, c, hash, src, cfg);
    ArrivedAll(objects, p.shards, hash);
  }

  lemma ChosenAsks(copies: seq<ShardCopy>, online: set<string>, target: string, shipments: seq<Shipment>,
                   p: Payload, c: Codec, hash: Bytes -> string, src: Bytes, cfg: Config)
    requires Kernel(c, cfg) && Truthful(copies, c, hash, src, cfg)
    requires |hash(src)| == DIGEST_LENGTH && FileOf(hash(src)) == hash(src)
    requires p == Payload(hash(src), |src|, cfg.dataShards, cfg.parityShards, cfg.blockBytes, p.shards)
    requires Chosen(copies, online, target, cfg.dataShards, p.shards, shipments)
    ensures Asks(p, c, hash, src, cfg)
  {
    var full := Encoded(c, hash, src, cfg);
    forall s | s in p.shards ensures s.index in full.files && s.sha256 == hash(full.files[s.index]) {
      var i :| 0 <= i < |p.shards| && p.shards[i] == s;
      assert Backed(copies, online, p.shards[i]);
      var j :| FirstUsable(copies, online, s.index, j) && ShardOf(copies[j]) == s;
      assert copies[j] in copies;
    }
  }

  /** As many indices arrived as there are shards exactly when all of them did. */
  lemma ArrivedAll(objects: Objects, shards: seq<Shard>, hash: Bytes -> string)
    requires forall i, j :: 0 <= i < j < |shards| ==> shards[i].index < shards[j].index
    ensures |ArrivedIndices(objects, shards, hash)| >= |shards| <==> forall s :: s in shards ==> Arrived(objects, s, hash)
  {
    var here, all := ArrivedIndices(objects, shards, hash), IndicesOf(shards);
    IndicesSize(shards);
    SubsetSize(here, all);
    if here == all {
      forall s | s in shards ensures Arrived(objects, s, hash) {
        assert s.index in here;
        var x :| x in shards && Arrived(objects, x, hash) && x.index == s.index;
      }
    }
    if forall s :: s in shards ==> Arrived(objects, s, hash) {
      assert here == all;
    }
  }
}
