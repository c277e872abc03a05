/** Single steps of transfers, request by request: when an upload chunk or a finalize is granted, what a download
    attempt leaves, what an encrypted stream consists of, and what ingesting a file answers
    (internal/controlplane/agent_server.go, remote_store.go; internal/replication/crypto.go; internal/cas/cas.go). */
module ExchangeFacts {
  import opened Prelude
  import UploadServer
  import Download
  import Frames
  import CasIngest

  // --- Uploads -----------------------------------------------------------------------------------

  function Held(part: Option<Bytes>): Bytes {
    match part
    case None => []
    case Some(file) => file
  }

  /** A chunk is granted when it starts where the file ends, arrives whole, carries its digest and stays within both
      limits. Granted, it is recorded as the end of an unfinished transfer; refused, only the part file can change,
      and its length does not. */
  lemma ChunkIff(s: UploadServer.State, p: UploadServer.Position, l: UploadServer.Limits, hash: UploadServer.Hash,
                 offset: nat, want: string, body: Bytes, complete: bool)
    ensures var (now, ok) := UploadServer.Chunked(s, p, l, hash, offset, want, body, complete);
            var file := Held(s.part);
            && (ok <==> && offset == |file| && complete && |body| <= l.chunkMax && hash(body) == want
                        && (0 < l.transferMax ==> offset + |body| <= l.transferMax))
            && now.spool == s.spool && |Held(now.part)| >= |file|
            && now.record == (if ok then Some(UploadServer.Record(false, offset + |body|, "")) else s.record)
            && (!ok ==> |Held(now.part)| == |file|)
            && (ok && p == UploadServer.AtOffset ==> now.part == Some(file + body))
            && (ok && p == UploadServer.AtStart && |file| <= |body| ==> now.part == Some(body))
            && (ok && p == UploadServer.AtStart && |body| < |file| ==> now.part == Some(body + file[|body|..]))
  {
    var file := UploadServer.PartBytes(s);
    if |file| == offset {
      var data := body[..Min(|body|, l.chunkMax + 1)];
      assert |body| <= l.chunkMax ==> data == body;
      assert UploadServer.Overwrite(file, offset, data) == file + data;
      if |file| <= |data| {
        assert UploadServer.Overwrite(file, 0, data) == data;
      } else {
        assert UploadServer.Overwrite(file, 0, data) == data + file[|data|..];
      }
    }
  }

  /** A finished transfer grants the finalize that finished it and no other, and stays as it is. An unfinished one is
      finished when the part file has the length and the digest; then the part file is the spool file. */
  lemma FinalizeIff(s: UploadServer.State, hash: UploadServer.Hash, sha256: string, bytes: nat)
    ensures var (now, ok) := UploadServer.Finalized(s, hash, sha256, bytes);
            if s.record.Some? && s.record.value.ready then
              now == s && (ok <==> s.record.value.bytes == bytes && Lower(s.record.value.sha256) == Lower(sha256))
            else
              && (ok <==> s.part.Some? && |s.part.value| == bytes && Lower(hash(s.part.value)) == Lower(sha256))
              && now == if ok then UploadServer.State(None, s.part, Some(UploadServer.Record(true, bytes, Lower(sha256)))) else s
  {
  }

  /** Whatever requests arrived since a transfer began, if it is finished its spool file has the recorded length and
      digest. */
  lemma FinishedIsTrue(p: UploadServer.Position, l: UploadServer.Limits, hash: UploadServer.Hash, events: seq<UploadServer.Event>)
    requires Digest(hash)
    ensures var s := UploadServer.Run(UploadServer.State(None, None, None), p, l, hash, events);
            s.record.Some? && s.record.value.ready ==>
              s.spool.Some? && |s.spool.value| == s.record.value.bytes && hash(s.spool.value) == s.record.value.sha256
  {
    UploadServer.RunKeepsInv(UploadServer.State(None, None, None), p, l, hash, events);
  }

  /** The status request answers with the length of what has arrived, or of the finished transfer. */
  lemma OffsetIs(s: UploadServer.State)
    ensures UploadServer.ServerOffset(s)
         == if s.record.Some? && s.record.value.ready then s.record.value.bytes else |Held(s.part)|
  {
  }

  // --- Downloads -----------------------------------------------------------------------------------

  /** Expectations that are set are met. */
  predicate Meets(file: Bytes, e: Download.Expected, hash: Download.Hash) {
    && (0 < e.bytes ==> |file| == e.bytes)
    && (0 < |e.sha256| ==> Lower(hash(file)) == Lower(e.sha256))
  }

  /** A complete file with the expected bytes is not asked for again. Otherwise a file that is as long as expected, or
      longer, is thrown away, the request asks for what comes after the rest, and an answer with the whole replaces it. */
  lemma AttemptIs(file: Bytes, e: Download.Expected, hash: Download.Hash, net: nat -> Download.Response)
    ensures var (now, ok) := Download.Attempt(file, e, hash, net);
            var start := if 0 < e.bytes && e.bytes <= |file| then [] else file;
            if 0 < e.bytes && |file| == e.bytes && Meets(file, e, hash) then ok && now == file
            else
              && (net(|start|).Unusable? ==> !ok && now == start)
              && (net(|start|).Body? ==>
                    && now == (if net(|start|).whole then net(|start|).content else start + net(|start|).content)
                    && (ok <==> net(|start|).complete && Meets(now, e, hash)))
  {
    var base := Download.Kept(file, e);
    var r := net(|base|);
    if r.Body? && base == [] {
      assert base + r.content == r.content;
    }
  }

  lemma AnswersAre(net: Download.Network, attempt: nat, offset: nat)
    ensures Download.Answers(net, attempt)(offset) == net(attempt, offset)
  {
  }

  /** Attempts follow one another until one succeeds or the last one is over; each goes on from the file the one before
      it left. */
  lemma {:induction false} AttemptsAre(file: Bytes, e: Download.Expected, hash: Download.Hash, net: Download.Network,
                                       first: nat, retries: nat) returns (files: seq<Bytes>)
    requires first <= retries
    ensures 0 < |files| <= retries - first + 1 && files[0] == file
    ensures forall k :: 0 <= k < |files| - 1 ==>
              Download.Attempt(files[k], e, hash, Download.Answers(net, first + k))
              == (files[k + 1], Download.Attempts(file, e, hash, net, first, retries).1 && k == |files| - 2)
    ensures Download.Attempts(file, e, hash, net, first, retries).0 == files[|files| - 1]
    ensures |files| == 1 || !Download.Attempts(file, e, hash, net, first, retries).1 ==>
              |files| == retries - first + 1 && !Download.Attempts(file, e, hash, net, first, retries).1
    decreases retries - first
  {
    files := [file];
    if first < retries {
      var (now, ok) := Download.Attempt(file, e, hash, Download.Answers(net, first));
      if ok {
        files := [file, now];
      } else {
        var rest := AttemptsAre(now, e, hash, net, first + 1, retries);
        files := [file] + rest;
        forall k | 0 <= k < |files| - 1
          ensures Download.Attempt(files[k], e, hash, Download.Answers(net, first + k))
               == (files[k + 1], Download.Attempts(file, e, hash, net, first, retries).1 && k == |files| - 2)
        {
          if 0 < k {
            assert files[k] == rest[k - 1] && files[k + 1] == rest[k] && first + k == first + 1 + (k - 1);
          }
        }
      }
    }
  }

  // --- Encrypted streams --------------------------------------------------------------------------------

  /** Four bytes as one number, most significant first. */
  function Number(w: Bytes): nat
    requires |w| == 4
  {
    16777216 * w[0] as nat + 65536 * w[1] as nat + 256 * w[2] as nat + w[3] as nat
  }

  lemma NumberIsValue(w: Bytes)
    requires |w| == 4
    ensures Frames.Value(w) == Number(w)
  {
  }

  /** Encrypting one piece: the magic text and the public half of the fresh key; the length of what is sealed, the
      nonce, what is sealed under the key that both public keys and the secret yield; four zero bytes. */
  method EncryptPiece(s: Frames.Suite, plain: Bytes, destination: Bytes, ephemeral: Bytes, nonce: Bytes)
    returns (r: Result<Bytes, Frames.Error>)
    requires Frames.Lawful(s) && 0 < |plain| <= 1048576
    ensures s.agree(ephemeral, destination).None? ==> r == Failure(Frames.NoAgreement)
    ensures s.agree(ephemeral, destination).Some? ==>
              var key := s.derive(s.agree(ephemeral, destination).value, s.publicOf(ephemeral), destination);
              exists length: Bytes :: |length| == 4 && Number(length) == |plain| + 16
                && r == Success([82, 65, 82, 75, 82, 80, 76, 49] + s.publicOf(ephemeral) + length + nonce + s.seal(key, nonce, plain) + [0, 0, 0, 0])
  {
    r := Frames.Encrypt(s, [plain], destination, ephemeral, _ => nonce);
    if s.agree(ephemeral, destination).Some? {
      var key := s.derive(s.agree(ephemeral, destination).value, s.publicOf(ephemeral), destination);
      var sealed := s.seal(key, nonce, plain);
      var head := [82, 65, 82, 75, 82, 80, 76, 49] + s.publicOf(ephemeral);
      var length := Frames.Word(|sealed|);
      Frames.WordValue(|sealed|);
      NumberIsValue(length);
      OnePiece(s, key, nonce, plain);
      assert r == Success(head + (length + nonce + sealed + [0, 0, 0, 0]));
      assert head + (length + nonce + sealed + [0, 0, 0, 0]) == head + length + nonce + sealed + [0, 0, 0, 0];
    }
  }

  lemma OnePiece(s: Frames.Suite, key: Bytes, nonce: Bytes, plain: Bytes)
    requires Frames.Lawful(s) && 0 < |plain| <= 1048576
    ensures Frames.Stream(s, key, _ => nonce, [plain], 0)
         == Frames.Word(|s.seal(key, nonce, plain)|) + nonce + s.seal(key, nonce, plain) + [0, 0, 0, 0]
  {
    assert Frames.Stream(s, key, _ => nonce, [plain], 1) == Frames.Word(0) == [0, 0, 0, 0];
    assert Frames.Stream(s, key, _ => nonce, [plain], 0)
        == Frames.Frame(s, key, nonce, plain) + Frames.Stream(s, key, _ => nonce, [plain], 1);
  }

  /** How reading frames ends: cut short before a length or inside a frame, at a zero length, at a length above
      1048704 bytes, at a frame that does not open; otherwise it goes on behind the frame. */
  lemma ReadingEnds(s: Frames.Suite, key: Bytes, input: Bytes)
    ensures var r := Frames.Decoded(s, key, input);
            if |input| < 4 then r == Failure(Frames.Truncated)
            else
              var n := Number(input[..4]);
              && (n == 0 ==> r == Success([]))
              && (1048704 < n ==> r == Failure(Frames.FrameTooLarge))
              && (0 < n <= 1048704 && |input| < 16 + n ==> r == Failure(Frames.Truncated))
              && (0 < n <= 1048704 && 16 + n <= |input| ==>
                    var plain := s.open(key, input[4..16], input[16..16 + n]);
                    && (plain.None? ==> r == Failure(Frames.NotAuthentic))
                    && (plain.Some? ==>
                          var rest := Frames.Decoded(s, key, input[16 + n..]);
                          r == if rest.Success? then Success(plain.value + rest.value) else rest))
  {
    if 4 <= |input| {
      NumberIsValue(input[..4]);
    }
  }

  /** Nothing is opened before the magic text and a key that agrees have been read. */
  lemma HeaderIsRead(s: Frames.Suite, input: Bytes, private: Bytes)
    ensures var r := Frames.Decrypted(s, input, private);
            && (|input| < 8 ==> r == Failure(Frames.Truncated))
            && (8 <= |input| && input[..8] != [82, 65, 82, 75, 82, 80, 76, 49] ==> r == Failure(Frames.BadMagic))
            && (8 <= |input| < 40 && input[..8] == [82, 65, 82, 75, 82, 80, 76, 49] ==> r == Failure(Frames.Truncated))
            && (40 <= |input| && input[..8] == [82, 65, 82, 75, 82, 80, 76, 49] ==>
                  var shared := s.agree(private, input[8..40]);
                  r == if shared.None? then Failure(Frames.NoAgreement)
                       else Frames.Decoded(s, s.derive(shared.value, input[8..40], s.publicOf(private)), input[40..]))
  {
  }

  // --- Ingested files ---------------------------------------------------------------------------------------

  /** What ingesting a file answers: the file has to exist and be large enough, and an object of its digest, if there
      is one, to be of its length. Bytes are reclaimed when the object was there and the file becomes a link to it. */
  lemma IngestAnswers(d: CasIngest.Disk, path: string, layout: CasIngest.Layout, hash: CasIngest.Hash, minSize: int, links: bool)
    requires CasIngest.Wellformed(d) && CasIngest.Separate(layout, path)
    ensures var (now, out) := CasIngest.Ingested(d, path, layout, hash, minSize, links);
            if path !in d.names then out == CasIngest.Missing && now == d
            else
              var content := d.data[d.names[path]];
              var blob := layout(hash(content));
              var there := blob in d.names;
              var same := there && d.names[blob] == d.names[path];
              && (|content| < minSize ==> out == CasIngest.TooSmall && now == d)
              && (minSize <= |content| && there && |d.data[d.names[blob]]| != |content| ==> out == CasIngest.SizeMismatch && now == d)
              && (minSize <= |content| && (there ==> |d.data[d.names[blob]]| == |content|) ==>
                    && out == CasIngest.Stored(hash(content), there, same || links,
                                               if there && links && !same then |content| else 0)
                    && blob in now.names && path in now.names && now.names[blob] in now.data
                    && now.names[path] == (if same || links then now.names[blob] else d.names[path])
                    && now.data[now.names[blob]] == if there then d.data[d.names[blob]] else content)
  {
  }
}
