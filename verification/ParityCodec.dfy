/** The smallest member of the codec family: one parity shard, byte-wise sum modulo 256.
    It shows that the law assumed of the Reed-Solomon kernel can be met. */
module ParityCodec {
  import opened Prelude
  import opened Erasure

  function Sum(rows: seq<Bytes>, j: nat): int
    requires forall i :: 0 <= i < |rows| ==> j < |rows[i]|
  {
    if rows == [] then 0 else rows[0][j] as int + Sum(rows[1..], j)
  }

  function SumRow(rows: seq<Bytes>, len: nat): (r: Bytes)
    requires Uniform(rows, len)
    ensures |r| == len
  {
    seq(len, j requires 0 <= j < len => (Sum(rows, j) % 256) as byte)
  }

  function Parity(data: seq<Bytes>): seq<Bytes> {
    if data == [] || !Uniform(data, |data[0]|) then [] else [SumRow(data, |data[0]|)]
  }

  function LenOf(view: seq<Option<Bytes>>): nat {
    if view == [] then 0 else if view[0].Some? then |view[0].value| else LenOf(view[1..])
  }

  function Fill(view: seq<Option<Bytes>>, len: nat): (r: seq<Bytes>)
    ensures |r| == |view|
  {
    seq(|view|, i requires 0 <= i < |view| => if view[i].Some? then view[i].value else Zeros(len))
  }

  function Missing(view: seq<Option<Bytes>>): (i: nat)
    requires Present(view) < |view|
    ensures i < |view| && view[i].None?
    ensures Present(view) + 1 == |view| ==> forall j :: 0 <= j < |view| && j != i ==> view[j].Some?
  {
    if view[0].None? then (AllPresent(view[1..]); 0) else Missing(view[1..]) + 1
  }

  lemma {:induction false} AllPresent(view: seq<Option<Bytes>>)
    ensures Present(view) == |view| ==> forall j :: 0 <= j < |view| ==> view[j].Some?
  {
    if view != [] {
      AllPresent(view[1..]);
    }
  }

  /** Byte `j` of the only missing shard, from the others. */
  function Recover(data: seq<Bytes>, parity: Bytes, missingParity: bool, len: nat): (r: Bytes)
    requires Uniform(data, len) && |parity| == len
  {
    if missingParity then SumRow(data, len)
    else seq(len, j requires 0 <= j < len => ((parity[j] as int - Sum(data, j)) % 256) as byte)
  }

  function Complete(view: seq<Option<Bytes>>): Option<seq<Bytes>> {
    var len := LenOf(view);
    var row := Fill(view, len);
    if view == [] || !Uniform(row, len) || Present(view) + 1 < |view| then None
    else if Present(view) == |view| then Some(row)
    else
      var i := Missing(view);
      var k := |view| - 1;
      Some(row[i := Recover(row[..k], row[k], i == k, len)])
  }

  const CODEC := Codec(Parity, Complete)

  lemma {:induction false} SumReplace(rows: seq<Bytes>, i: nat, len: nat, j: nat)
    requires Uniform(rows, len) && i < |rows| && j < len
    ensures Uniform(rows[i := Zeros(len)], len)
    ensures Sum(rows[i := Zeros(len)], j) == Sum(rows, j) - rows[i][j] as int
  {
    if i > 0 {
      SumReplace(rows[1..], i - 1, len, j);
      assert rows[i := Zeros(len)][1..] == rows[1..][i - 1 := Zeros(len)];
    } else {
      assert rows[i := Zeros(len)][1..] == rows[1..];
    }
  }

  lemma {:induction false} LenFound(view: seq<Option<Bytes>>, row: seq<Bytes>, len: nat)
    requires ViewOf(view, row) && Uniform(row, len) && 0 < Present(view)
    ensures LenOf(view) == len
  {
    if view[0].None? {
      LenFound(view[1..], row[1..], len);
    }
  }

  lemma RecoverRight(data: seq<Bytes>, i: nat, len: nat)
    requires Uniform(data, len) && i < |data|
    ensures Uniform(data[i := Zeros(len)], len)
    ensures Recover(data[i := Zeros(len)], SumRow(data, len), false, len) == data[i]
  {
    var rest := data[i := Zeros(len)];
    forall j | 0 <= j < len
      ensures (SumRow(data, len)[j] as int - Sum(rest, j)) % 256 == data[i][j] as int
    {
      SumReplace(data, i, len, j);
    }
  }

  lemma CompleteRight(data: seq<Bytes>, view: seq<Option<Bytes>>, k: nat, len: nat)
    requires 1 <= k == |data| && Uniform(data, len)
    requires ViewOf(view, data + Parity(data)) && k <= Present(view)
    ensures Complete(view) == Some(data + Parity(data))
  {
    var row := data + Parity(data);
    assert row == data + [SumRow(data, len)];
    LenFound(view, row, len);
    AllPresent(view);
    var filled := Fill(view, len);
    if Present(view) == |view| {
      assert filled == row;
    } else {
      var i := Missing(view);
      assert filled == row[i := Zeros(len)];
      if i < k {
        assert filled[..k] == data[i := Zeros(len)];
        RecoverRight(data, i, len);
      } else {
        assert filled[..k] == data;
      }
      assert row[i := Zeros(len)][i := row[i]] == row;
    }
  }

  /** Any `k` of the `k + 1` shards determine the stripe. */
  lemma OneParityIsMaximumDistance(k: nat)
    requires 1 <= k
    ensures MaximumDistance(CODEC, k, 1)
  {
    forall data: seq<Bytes>, len: nat, view: seq<Option<Bytes>> |
      && |data| == k && Uniform(data, len)
      && ViewOf(view, data + CODEC.parity(data)) && k <= Present(view)
      ensures CODEC.complete(view) == Some(data + CODEC.parity(data))
    {
      CompleteRight(data, view, k, len);
    }
  }
}
