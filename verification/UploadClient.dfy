/** The sending side of a resumable upload over a network that loses requests, responses
    and bodies (internal/controlplane/remote_store.go, UploadReplicationFile). */
module UploadClient {
  import opened Prelude
  import opened UploadServer

  /** What becomes of one exchange. */
  datatype Fate = Delivered | RequestLost | ResponseLost | BodyCut(n: nat) | Refused

  /** The fate of every exchange of a run. */
  type Network = nat -> Fate

  datatype Outcome = Done | Failed | Unfinished

  /** A chunk request under a given fate: the new server state and whether the client sees success. */
  function Patched(s: State, p: Position, l: Limits, hash: Hash, offset: nat, chunk: Bytes, fate: Fate): (State, bool) {
    match fate
    case Delivered => Chunked(s, p, l, hash, offset, hash(chunk), chunk, true)
    case ResponseLost => (Chunked(s, p, l, hash, offset, hash(chunk), chunk, true).0, false)
    case BodyCut(n) => (Chunked(s, p, l, hash, offset, hash(chunk), chunk[..Min(n, |chunk|)], false).0, false)
    case _ => (s, false)
  }

  method Patch(server: Server, offset: nat, chunk: Bytes, fate: Fate, hash: Hash) returns (ok: bool)
    modifies server
    ensures (server.Value(), ok) == Patched(old(server.Value()), server.position, server.limits, hash, offset, chunk, fate)
  {
    match fate
    case Delivered =>
      ok := server.Chunk(offset, hash(chunk), chunk, true, hash);
    case ResponseLost =>
      ok := server.Chunk(offset, hash(chunk), chunk, true, hash);
      ok := false;
    case BodyCut(n) =>
      ok := server.Chunk(offset, hash(chunk), chunk[..Min(n, |chunk|)], false, hash);
      ok := false;
    case _ =>
      ok := false;
  }

  method Query(server: Server, fate: Fate) returns (offset: Option<nat>)
    ensures offset == if fate == Delivered then Some(ServerOffset(server.Value())) else None
  {
    offset := None;
    if fate == Delivered {
      var n, ready := server.Status();
      offset := Some(n);
    }
  }

  // --- Progress ------------------------------------------------------------------------------

  /** The server holds nothing but bytes of `src`: a prefix in the part file, or all of it as spool. */
  ghost predicate Consistent(s: State, src: Bytes, hash: Hash) {
    && PartBytes(s) <= src
    && (Ready(s) ==> s.record.value.bytes == |src| && PartBytes(s) == [] && s.record.value.sha256 == hash(src))
  }

  /** Chunks land where they belong: always, or because the first one is the last one. */
  ghost predicate Lands(s: State, p: Position, src: Bytes, chunkBytes: nat) {
    p == AtOffset || (|src| <= chunkBytes && (PartBytes(s) == [] || PartBytes(s) == src))
  }

  /** The client is never ahead of the server. */
  ghost predicate Tracks(s: State, src: Bytes, hash: Hash, offset: nat) {
    && Consistent(s, src, hash) && offset <= ServerOffset(s) <= |src|
    && (Ready(s) && offset < |src| ==> offset == 0)
  }

  ghost predicate Following(s: State, p: Position, src: Bytes, chunkBytes: nat, hash: Hash, offset: nat) {
    Tracks(s, src, hash, offset) && Lands(s, p, src, chunkBytes)
  }

  lemma LandedChunk(s: State, p: Position, l: Limits, hash: Hash, src: Bytes, chunkBytes: nat, offset: nat, n: nat,
                    want: string, arrived: nat, complete: bool)
    requires Following(s, p, src, chunkBytes, hash, offset) && offset < |src|
    requires 0 < n == Min(chunkBytes, |src| - offset) && arrived <= n
    ensures var (now, ok) := Chunked(s, p, l, hash, offset, want, src[offset..offset + n][..arrived], complete);
            && PartBytes(now) == PartBytes(s) + (if ok then src[offset..offset + arrived] else [])
            && (ok ==> |PartBytes(s)| == offset && !Ready(now))
            && (!ok ==> now.record == s.record)
  {
    var body := src[offset..offset + n][..arrived];
    assert body == src[offset..offset + arrived];
    if p == AtOffset || offset == 0 {
      AppendOnly(s, l, hash, offset, want, body, complete);
      assert Landing(p, offset) == Landing(AtOffset, offset);
    }
  }

  lemma ChunkFollows(s: State, p: Position, l: Limits, hash: Hash, src: Bytes, chunkBytes: nat, offset: nat, n: nat,
                     arrived: nat, complete: bool)
    requires Following(s, p, src, chunkBytes, hash, offset) && offset < |src|
    requires 0 < n == Min(chunkBytes, |src| - offset) && arrived <= n && (complete ==> arrived == n)
    ensures var chunk := src[offset..offset + n];
            var (now, ok) := Chunked(s, p, l, hash, offset, hash(chunk), chunk[..arrived], complete);
            && Following(now, p, src, chunkBytes, hash, offset)
            && (ok ==> Following(now, p, src, chunkBytes, hash, offset + n))
  {
    var chunk := src[offset..offset + n];
    LandedChunk(s, p, l, hash, src, chunkBytes, offset, n, hash(chunk), arrived, complete);
    var (now, ok) := Chunked(s, p, l, hash, offset, hash(chunk), chunk[..arrived], complete);
    if ok {
      assert arrived == n;
      assert src[..offset] + src[offset..offset + n] == src[..offset + n];
    } else {
      assert PartBytes(now) == PartBytes(s);
    }
  }

  lemma PatchFollows(s: State, p: Position, l: Limits, hash: Hash, src: Bytes, chunkBytes: nat, offset: nat, n: nat, fate: Fate)
    requires Following(s, p, src, chunkBytes, hash, offset) && offset < |src|
    requires 0 < n == Min(chunkBytes, |src| - offset)
    ensures var (now, ok) := Patched(s, p, l, hash, offset, src[offset..offset + n], fate);
            && Following(now, p, src, chunkBytes, hash, offset)
            && (ok ==> Following(now, p, src, chunkBytes, hash, offset + n))
  {
    var chunk := src[offset..offset + n];
    assert chunk[..n] == chunk;
    match fate
    case Delivered => ChunkFollows(s, p, l, hash, src, chunkBytes, offset, n, n, true);
    case ResponseLost => ChunkFollows(s, p, l, hash, src, chunkBytes, offset, n, n, true);
    case BodyCut(m) => ChunkFollows(s, p, l, hash, src, chunkBytes, offset, n, Min(m, n), false);
    case _ =>
  }

  /** Over a reliable network a chunk within the limits is accepted, unless the server is already further. */
  lemma ReliablePatch(s: State, p: Position, l: Limits, hash: Hash, src: Bytes, chunkBytes: nat, offset: nat, n: nat)
    requires Following(s, p, src, chunkBytes, hash, offset) && offset < |src|
    requires 0 < n == Min(chunkBytes, |src| - offset)
    requires chunkBytes <= l.chunkMax && (l.transferMax == 0 || |src| <= l.transferMax)
    ensures var (now, ok) := Patched(s, p, l, hash, offset, src[offset..offset + n], Delivered);
            ok || ServerOffset(now) != offset
  {
    var chunk := src[offset..offset + n];
    assert chunk[..Min(|chunk|, l.chunkMax + 1)] == chunk;
  }

  lemma QueryFollows(s: State, p: Position, src: Bytes, chunkBytes: nat, hash: Hash, offset: nat)
    requires Following(s, p, src, chunkBytes, hash, offset)
    ensures Following(s, p, src, chunkBytes, hash, ServerOffset(s))
  {
  }

  // --- Safety of chunk requests ---------------------------------------------------------------

  /** What chunk requests never do: spoil a finished transfer, finish one, or, landing at the start,
      grow a part file beyond the chunk size. */
  ghost predicate Harmless(s: State, now: State, p: Position, hash: Hash, chunkBytes: nat) {
    && (Inv(s, hash) ==> Inv(now, hash))
    && (!Ready(s) ==> !Ready(now))
    && (p == AtStart && |PartBytes(s)| <= chunkBytes ==> |PartBytes(now)| <= chunkBytes)
  }

  lemma ChunkHarmless(s: State, p: Position, l: Limits, hash: Hash, offset: nat, want: string, body: Bytes, complete: bool, chunkBytes: nat)
    requires |body| <= chunkBytes
    ensures Harmless(s, Chunked(s, p, l, hash, offset, want, body, complete).0, p, hash, chunkBytes)
  {
    if p == AtStart && |PartBytes(s)| <= chunkBytes {
      NeverOutgrows(s, l, hash, offset, want, body, complete, chunkBytes);
    }
  }

  lemma PatchHarmless(s: State, p: Position, l: Limits, hash: Hash, offset: nat, chunk: Bytes, fate: Fate, chunkBytes: nat)
    requires |chunk| <= chunkBytes
    ensures Harmless(s, Patched(s, p, l, hash, offset, chunk, fate).0, p, hash, chunkBytes)
  {
    match fate
    case Delivered => ChunkHarmless(s, p, l, hash, offset, hash(chunk), chunk, true, chunkBytes);
    case ResponseLost => ChunkHarmless(s, p, l, hash, offset, hash(chunk), chunk, true, chunkBytes);
    case BodyCut(m) => ChunkHarmless(s, p, l, hash, offset, hash(chunk), chunk[..Min(m, |chunk|)], false, chunkBytes);
    case _ =>
  }

  // --- A part file left by another attempt -------------------------------------------------------

  /** The server holds bytes that no upload of `src` put there: the part file is not empty and is not
      a prefix of `src`, or, landing at the start, is not `src` itself. */
  ghost predicate Foreign(s: State, p: Position, src: Bytes) {
    && !Ready(s) && PartBytes(s) != []
    && if p == AtOffset then !(PartBytes(s) <= src) else PartBytes(s) != src
  }

  /** Such a part file stays in the way. */
  ghost predicate StaysForeign(s: State, now: State, p: Position, src: Bytes) {
    Foreign(s, p, src) ==> Foreign(now, p, src) && (p == AtOffset ==> PartBytes(s) <= PartBytes(now))
  }

  lemma ChunkStaysForeign(s: State, p: Position, l: Limits, hash: Hash, src: Bytes, offset: nat, n: nat,
                          want: string, arrived: nat, complete: bool)
    requires offset + n <= |src| && offset < |src| && arrived <= n
    ensures StaysForeign(s, Chunked(s, p, l, hash, offset, want, src[offset..offset + n][..arrived], complete).0, p, src)
  {
    if p == AtOffset {
      AppendOnly(s, l, hash, offset, want, src[offset..offset + n][..arrived], complete);
    }
  }

  lemma PatchStaysForeign(s: State, p: Position, l: Limits, hash: Hash, src: Bytes, offset: nat, n: nat, fate: Fate)
    requires offset + n <= |src| && offset < |src|
    ensures StaysForeign(s, Patched(s, p, l, hash, offset, src[offset..offset + n], fate).0, p, src)
  {
    var chunk := src[offset..offset + n];
    assert chunk[..n] == chunk;
    match fate
    case Delivered => ChunkStaysForeign(s, p, l, hash, src, offset, n, hash(chunk), n, true);
    case ResponseLost => ChunkStaysForeign(s, p, l, hash, src, offset, n, hash(chunk), n, true);
    case BodyCut(m) => ChunkStaysForeign(s, p, l, hash, src, offset, n, hash(chunk), Min(m, n), false);
    case _ =>
  }

  /** A finalize of `src` is refused and changes nothing. */
  lemma ForeignRefused(s: State, p: Position, src: Bytes, hash: Hash)
    requires Digest(hash) && Foreign(s, p, src)
    ensures Finalized(s, hash, hash(src), |src|) == (s, false)
  {
    if s.part.Some? {
      DigestFold(hash, s.part.value, src);
    }
  }

  // --- The client ---------------------------------------------------------------------------------

  ghost predicate Reliable(net: Network) {
    forall i: nat :: net(i) == Delivered
  }

  ghost predicate Fits(l: Limits, src: Bytes, chunkBytes: nat) {
    chunkBytes <= l.chunkMax && (l.transferMax == 0 || |src| <= l.transferMax)
  }

  /** The attempts at one chunk: a failed one is followed by a question for the server's offset. */
  method SendChunk(server: Server, src: Bytes, offset: nat, chunkBytes: nat, retries: nat, net: Network, tick: nat, hash: Hash)
    returns (offset': nat, ok: bool, tick': nat)
    requires offset < |src| && 0 < chunkBytes && 0 < retries
    modifies server
    ensures Harmless(old(server.Value()), server.Value(), server.position, hash, chunkBytes)
    ensures StaysForeign(old(server.Value()), server.Value(), server.position, src)
    ensures Following(old(server.Value()), server.position, src, chunkBytes, hash, offset) ==>
              && Following(server.Value(), server.position, src, chunkBytes, hash, offset')
              && (ok ==> offset < offset')
              && (Reliable(net) && Fits(server.limits, src, chunkBytes) ==> ok)
    ensures tick' <= tick + 2 * retries
  {
    ghost var following := Following(server.Value(), server.position, src, chunkBytes, hash, offset);
    var n := Min(chunkBytes, |src| - offset);
    var chunk := src[offset..offset + n];
    offset', ok, tick' := offset, false, tick;
    for attempt := 0 to retries
      invariant Harmless(old(server.Value()), server.Value(), server.position, hash, chunkBytes)
      invariant StaysForeign(old(server.Value()), server.Value(), server.position, src)
      invariant following ==> Following(server.Value(), server.position, src, chunkBytes, hash, offset)
      invariant following && Reliable(net) && Fits(server.limits, src, chunkBytes) ==> attempt == 0
      invariant offset' == offset && tick' == tick + 2 * attempt
    {
      ghost var before := server.Value();
      var accepted := Patch(server, offset, chunk, net(tick'), hash);
      Attempted(before, server.position, server.limits, hash, src, chunkBytes, offset, n, net(tick'));
      if accepted {
        return offset + n, true, tick' + 1;
      }
      var answer := Query(server, net(tick' + 1));
      tick' := tick' + 2;
      if answer.Some? && answer.value != offset {
        offset', ok := answer.value, true;
        return;
      }
    }
  }

  /** What one attempt preserves and achieves. */
  lemma Attempted(s: State, p: Position, l: Limits, hash: Hash, src: Bytes, chunkBytes: nat, offset: nat, n: nat, fate: Fate)
    requires offset < |src| && 0 < n == Min(chunkBytes, |src| - offset)
    ensures var (now, ok) := Patched(s, p, l, hash, offset, src[offset..offset + n], fate);
            && Harmless(s, now, p, hash, chunkBytes) && StaysForeign(s, now, p, src)
            && (Following(s, p, src, chunkBytes, hash, offset) ==>
                  && Following(now, p, src, chunkBytes, hash, offset)
                  && Following(now, p, src, chunkBytes, hash, ServerOffset(now))
                  && offset <= ServerOffset(now)
                  && (ok ==> Following(now, p, src, chunkBytes, hash, offset + n))
                  && (fate == Delivered && Fits(l, src, chunkBytes) ==> ok || ServerOffset(now) != offset))
  {
    var chunk := src[offset..offset + n];
    PatchHarmless(s, p, l, hash, offset, chunk, fate, chunkBytes);
    PatchStaysForeign(s, p, l, hash, src, offset, n, fate);
    if Following(s, p, src, chunkBytes, hash, offset) {
      PatchFollows(s, p, l, hash, src, chunkBytes, offset, n, fate);
      QueryFollows(Patched(s, p, l, hash, offset, chunk, fate).0, p, src, chunkBytes, hash, offset);
      if fate == Delivered && Fits(l, src, chunkBytes) {
        ReliablePatch(s, p, l, hash, src, chunkBytes, offset, n);
      }
    }
  }

  method SendFinalize(server: Server, src: Bytes, fate: Fate, hash: Hash) returns (r: Outcome)
    modifies server
    ensures r != Unfinished
    ensures Digest(hash) && Inv(old(server.Value()), hash) ==> Inv(server.Value(), hash)
    ensures Digest(hash) && Inv(old(server.Value()), hash) && r == Done ==> Ready(server.Value()) && server.spool == Some(src)
    ensures r == Done ==> Ready(old(server.Value())) || |PartBytes(old(server.Value()))| == |src|
    ensures Digest(hash) && Foreign(old(server.Value()), server.position, src) ==> r != Done && server.Value() == old(server.Value())
    ensures fate == Delivered ==> ((r == Done) <==> Finalized(old(server.Value()), hash, hash(src), |src|).1)
  {
    ghost var before := server.Value();
    r := Failed;
    if Digest(hash) && Foreign(before, server.position, src) {
      ForeignRefused(before, server.position, src, hash);
    }
    if fate == Delivered || fate == ResponseLost {
      var ok := server.Finalize(hash(src), |src|, hash);
      if Digest(hash) && Inv(before, hash) {
        FinalizeKeepsInv(before, hash, hash(src), |src|);
        if ok {
          FinalizeIsTrue(before, hash, src);
        }
      }
      if ok && fate == Delivered {
        r := Done;
      }
    }
  }

  /** The chunk loop, followed for at most `rounds` rounds. */
  method SendAll(server: Server, src: Bytes, start: nat, chunkBytes: nat, retries: nat, net: Network, tick: nat, hash: Hash, rounds: nat)
    returns (r: Outcome, tick': nat)
    requires 0 < chunkBytes && 0 < retries
    modifies server
    ensures Harmless(old(server.Value()), server.Value(), server.position, hash, chunkBytes)
    ensures StaysForeign(old(server.Value()), server.Value(), server.position, src)
    ensures Following(old(server.Value()), server.position, src, chunkBytes, hash, start) ==>
              && (r == Done ==> Following(server.Value(), server.position, src, chunkBytes, hash, |src|))
              && (|src| <= rounds ==> r != Unfinished)
              && (|src| <= rounds && Reliable(net) && Fits(server.limits, src, chunkBytes) ==> r == Done)
  {
    ghost var following := Following(server.Value(), server.position, src, chunkBytes, hash, start);
    var offset: nat, round := start, 0;
    tick' := tick;
    while offset < |src| && round < rounds
      invariant 0 <= round <= rounds
      invariant Harmless(old(server.Value()), server.Value(), server.position, hash, chunkBytes)
      invariant StaysForeign(old(server.Value()), server.Value(), server.position, src)
      invariant following ==> Following(server.Value(), server.position, src, chunkBytes, hash, offset) && round <= offset
      decreases rounds - round
    {
      var next: nat, ok;
      next, ok, tick' := SendChunk(server, src, offset, chunkBytes, retries, net, tick', hash);
      if !ok {
        return Failed, tick';
      }
      offset, round := next, round + 1;
    }
    r := if offset < |src| then Unfinished else Done;
  }

  /** The whole upload. Success means that the server's ready spool is the source, whatever the network
      did and wherever chunks land. If the part file starts as a prefix of the source and chunks land at
      their offsets, at most one round per byte is needed, and a reliable network means success. If chunks
      land at the start, no source longer than a chunk can succeed. A part file that an attempt with other
      bytes left behind makes this one fail and stays there. */
  method UploadFile(server: Server, src: Bytes, chunkBytes: nat, retries: nat, net: Network, hash: Hash, rounds: nat)
    returns (r: Outcome)
    requires 0 < chunkBytes && 0 < retries && Digest(hash) && Inv(server.Value(), hash)
    modifies server
    ensures Inv(server.Value(), hash)
    ensures r == Done ==> Ready(server.Value()) && server.spool == Some(src)
    ensures Consistent(old(server.Value()), src, hash) && Lands(old(server.Value()), server.position, src, chunkBytes) ==>
              && (|src| <= rounds ==> r != Unfinished)
              && (|src| <= rounds && src != [] && Reliable(net) && Fits(server.limits, src, chunkBytes) ==> r == Done)
    ensures server.position == AtStart && !Ready(old(server.Value())) && |PartBytes(old(server.Value()))| <= chunkBytes < |src| ==>
              r != Done
    ensures Foreign(old(server.Value()), server.position, src) ==> r != Done
    ensures StaysForeign(old(server.Value()), server.Value(), server.position, src)
  {
    var answer := Query(server, net(0));
    var offset := if answer.Some? then answer.value else 0;
    StartFollows(server.Value(), server.position, src, chunkBytes, hash, offset);
    var tick;
    r, tick := SendAll(server, src, offset, chunkBytes, retries, net, 1, hash, rounds);
    if r == Done {
      ghost var before := server.Value();
      r := SendFinalize(server, src, net(tick), hash);
      CompleteFinalizes(before, server.position, src, chunkBytes, hash);
    }
  }

  lemma StartFollows(s: State, p: Position, src: Bytes, chunkBytes: nat, hash: Hash, offset: nat)
    requires offset == ServerOffset(s) || offset == 0
    ensures Consistent(s, src, hash) && Lands(s, p, src, chunkBytes) ==> Following(s, p, src, chunkBytes, hash, offset)
  {
  }

  lemma CompleteFinalizes(s: State, p: Position, src: Bytes, chunkBytes: nat, hash: Hash)
    ensures Following(s, p, src, chunkBytes, hash, |src|) && src != [] ==> Finalized(s, hash, hash(src), |src|).1
  {
    if Following(s, p, src, chunkBytes, hash, |src|) && src != [] && !Ready(s) {
      assert PartBytes(s) == src;
    }
  }

  /** The attempts of one job: each encrypts anew and so sends bytes of its own under the same transfer.
      With chunks landing at their offsets, once a part file is no prefix of what any attempt sends, none
      of them succeeds, whatever the network does. */
  method UploadAttempts(server: Server, ciphers: seq<Bytes>, chunkBytes: nat, retries: nat, nets: nat -> Network, hash: Hash, rounds: nat)
    returns (r: Outcome)
    requires 0 < chunkBytes && 0 < retries && Digest(hash) && Inv(server.Value(), hash)
    modifies server
    ensures Inv(server.Value(), hash)
    ensures r == Done ==> Ready(server.Value()) && server.spool.Some? && server.spool.value in ciphers
    ensures server.position == AtOffset && (forall c :: c in ciphers ==> Foreign(old(server.Value()), AtOffset, c)) ==>
              r != Done && PartBytes(old(server.Value())) <= PartBytes(server.Value())
  {
    r := Failed;
    ghost var before := server.Value();
    ghost var blocked := server.position == AtOffset && forall c :: c in ciphers ==> Foreign(before, AtOffset, c);
    for i := 0 to |ciphers|
      invariant Inv(server.Value(), hash) && r != Done
      invariant blocked ==> PartBytes(before) <= PartBytes(server.Value()) && (Ready(server.Value()) ==> Ready(before))
    {
      assert ciphers[i] in ciphers;
      r := UploadFile(server, ciphers[i], chunkBytes, retries, nets(i), hash, rounds);
      if r == Done {
        return;
      }
    }
  }

  /** The first chunk of one ciphertext, accepted by an empty server. */
  lemma FirstChunkIsForeign(p: Position, l: Limits, hash: Hash, first: Bytes, other: Bytes, n: nat)
    requires 0 < n <= |first| && n <= l.chunkMax && (l.transferMax == 0 || n <= l.transferMax)
    requires other != [] && first[0] != other[0]
    ensures var (now, ok) := Patched(State(None, None, None), p, l, hash, 0, first[..n], Delivered);
            ok && PartBytes(now) == first[..n] && Foreign(now, p, other)
  {
    var chunk := first[..n];
    assert chunk[..Min(|chunk|, l.chunkMax + 1)] == chunk;
    assert chunk[0] != other[0];
  }

  /** A transfer from its beginning: perhaps the first chunk of an attempt that gets no further, then a whole attempt
      under another key, and no exchange is ever lost. Alone the attempt succeeds; after that chunk, if their first
      bytes differ, it fails, wherever chunks land. */
  method TransferFromEmpty(position: Position, limits: Limits, interrupted: bool, first: Bytes, other: Bytes,
                           chunkBytes: nat, retries: nat, hash: Hash)
    returns (accepted: bool, r: Outcome)
    requires 0 < chunkBytes && 0 < retries && Digest(hash) && first != [] && other != []
    requires Fits(limits, first, chunkBytes) && Fits(limits, other, chunkBytes)
    ensures !interrupted && (position == AtOffset || |other| <= chunkBytes) ==> r == Done
    ensures interrupted && first[0] != other[0] ==> accepted && r != Done
  {
    var server := new Server(position, limits);
    accepted := false;
    assert server.Value() == State(None, None, None) && Inv(server.Value(), hash);
    if interrupted {
      var n := Min(chunkBytes, |first|);
      accepted := Patch(server, 0, first[..n], Delivered, hash);
      PatchHarmless(State(None, None, None), position, limits, hash, 0, first[..n], Delivered, n);
      if first[0] != other[0] {
        FirstChunkIsForeign(position, limits, hash, first, other, n);
      }
    }
    r := UploadFile(server, other, chunkBytes, retries, i => Delivered, hash, |other|);
  }
}
