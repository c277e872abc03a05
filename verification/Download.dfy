/** Resumable download into a partial file that repairs itself
    (internal/controlplane/remote_store.go, DownloadReplicationFile). */
module Download {
  import opened Prelude

  type Hash = Bytes -> string

  /** An answer to a request: none or a refusal, or a body, whole (status 200) or from the
      requested offset on (status 206); `complete` tells whether the body ended properly. */
  datatype Response = Unusable | Body(whole: bool, content: Bytes, complete: bool)

  /** The answer to each attempt, given the offset it asks for. */
  type Network = (nat, nat) -> Response

  /** What the caller expects; no length when `bytes <= 0`, no digest when `sha256 == ""`. */
  datatype Expected = Expected(bytes: int, sha256: string)

  predicate Good(file: Bytes, e: Expected, hash: Hash) {
    (e.bytes <= 0 || |file| == e.bytes) && (e.sha256 == "" || EqualFold(hash(file), e.sha256))
  }

  predicate Present(file: Bytes, e: Expected, hash: Hash) {
    0 < e.bytes && |file| == e.bytes && Good(file, e, hash)
  }

  /** What an attempt keeps of the partial file. */
  function Kept(file: Bytes, e: Expected): Bytes {
    if 0 < e.bytes <= |file| then [] else file
  }

  function Received(base: Bytes, r: Response): Bytes {
    match r
    case Unusable => base
    case Body(whole, content, _) => if whole && base != [] then content else base + content
  }

  /** One attempt: the file it leaves and whether it succeeds. */
  function Attempt(file: Bytes, e: Expected, hash: Hash, net: nat -> Response): (Bytes, bool) {
    if Present(file, e, hash) then (file, true)
    else
      var base := Kept(file, e);
      var r := net(|base|);
      var now := Received(base, r);
      (now, r.Body? && r.complete && Good(now, e, hash))
  }

  function Answers(net: Network, attempt: nat): nat -> Response {
    (offset: nat) => net(attempt, offset)
  }

  function Attempts(file: Bytes, e: Expected, hash: Hash, net: Network, attempt: nat, retries: nat): (Bytes, bool)
    decreases retries - attempt
  {
    if attempt >= retries then (file, false)
    else
      var (now, ok) := Attempt(file, e, hash, Answers(net, attempt));
      if ok then (now, true) else Attempts(now, e, hash, net, attempt + 1, retries)
  }

  /** The partial file on disk. */
  class Partial {
    var file: Bytes

    constructor (initial: Bytes)
      ensures file == initial
    {
      file := initial;
    }

    method Try(e: Expected, hash: Hash, net: Network, attempt: nat) returns (ok: bool)
      modifies this
      ensures (file, ok) == Attempt(old(file), e, hash, Answers(net, attempt))
    {
      var offset := |file|;
      if e.bytes > 0 && offset == e.bytes {
        if |file| == e.bytes && (e.sha256 == "" || EqualFold(hash(file), e.sha256)) {
          return true;
        }
        file, offset := [], 0;
      }
      if e.bytes > 0 && offset > e.bytes {
        file, offset := [], 0;
      }
      var r := net(attempt, offset);
      if r.Unusable? {
        return false;
      }
      if offset > 0 && r.whole {
        file := [];
      }
      assert [] + r.content == r.content;
      file := file + r.content;
      ok := r.complete && (e.bytes <= 0 || |file| == e.bytes) && (e.sha256 == "" || EqualFold(hash(file), e.sha256));
    }

    method Download(e: Expected, hash: Hash, net: Network, retries: nat) returns (ok: bool)
      modifies this
      ensures (file, ok) == Attempts(old(file), e, hash, net, 0, if retries < 1 then 3 else retries)
      ensures ok ==> Good(file, e, hash)
    {
      var limit := if retries < 1 then 3 else retries;
      ghost var want := Attempts(file, e, hash, net, 0, limit);
      for attempt := 0 to limit
        invariant Attempts(file, e, hash, net, attempt, limit) == want
      {
        ok := Try(e, hash, net, attempt);
        if ok {
          NilMeansGood(old(file), e, hash, net, 0, limit);
          return;
        }
      }
      ok := false;
    }
  }

  /** Success means the expected length and digest, whatever the network did. */
  lemma {:induction false} NilMeansGood(file: Bytes, e: Expected, hash: Hash, net: Network, attempt: nat, retries: nat)
    ensures Attempts(file, e, hash, net, attempt, retries).1 ==> Good(Attempts(file, e, hash, net, attempt, retries).0, e, hash)
    decreases retries - attempt
  {
    if attempt < retries {
      var (now, ok) := Attempt(file, e, hash, Answers(net, attempt));
      if !ok {
        NilMeansGood(now, e, hash, net, attempt + 1, retries);
      }
    }
  }

  // --- An honest, responsive server ---------------------------------------------------------

  /** Serves `src`: whole when nothing else was asked for, otherwise the rest or, ignoring the range,
      the whole again; an offset at or beyond the end cannot be served, except that an empty file
      always can (section 14.2 of RFC 9110). */
  ghost predicate Honest(net: Network, src: Bytes) {
    forall i: nat, offset: nat ::
      if offset == 0 || src == [] then net(i, offset) == Body(true, src, true)
      else if offset < |src| then net(i, offset) == Body(false, src[offset..], true) || net(i, offset) == Body(true, src, true)
      else net(i, offset) == Unusable
  }

  lemma GoodIsSource(file: Bytes, src: Bytes, hash: Hash)
    requires Digest(hash) && hash(src) != ""
    ensures Good(file, Expected(|src|, hash(src)), hash) <==> file == src
  {
    DigestFold(hash, file, src);
  }

  /** One attempt repairs everything but a short file with wrong bytes, which it makes full-sized. */
  lemma HonestAttempt(file: Bytes, src: Bytes, hash: Hash, net: Network, attempt: nat)
    requires Digest(hash) && hash(src) != "" && src != [] && Honest(net, src)
    ensures var (now, ok) := Attempt(file, Expected(|src|, hash(src)), hash, Answers(net, attempt));
            && (ok ==> now == src)
            && (!ok ==> 0 < |file| < |src| && |now| == |src|)
  {
    var e := Expected(|src|, hash(src));
    GoodIsSource(file, src, hash);
    GoodIsSource(src, src, hash);
    if !Present(file, e, hash) {
      var base := Kept(file, e);
      var r := net(attempt, |base|);
      if base == [] || r.whole {
        assert [] + src == src;
      } else {
        GoodIsSource(base + src[|base|..], src, hash);
      }
    }
  }

  /** Whatever the partial file held, two attempts restore it. */
  lemma TwoAttemptsHeal(file: Bytes, src: Bytes, hash: Hash, net: Network, retries: nat)
    requires Digest(hash) && hash(src) != "" && src != [] && Honest(net, src) && 2 <= retries
    ensures Attempts(file, Expected(|src|, hash(src)), hash, net, 0, retries) == (src, true)
  {
    HonestAttempt(file, src, hash, net, 0);
    var (now, ok) := Attempt(file, Expected(|src|, hash(src)), hash, Answers(net, 0));
    if !ok {
      HonestAttempt(now, src, hash, net, 1);
    }
  }

  // --- Without an expected length -------------------------------------------------------------

  /** A full-sized file is stuck: every further request is beyond the end. */
  lemma {:induction false} FullStaysStuck(file: Bytes, e: Expected, src: Bytes, hash: Hash, net: Network, attempt: nat, retries: nat)
    requires Honest(net, src) && src != [] && e.bytes <= 0 && |src| <= |file|
    ensures Attempts(file, e, hash, net, attempt, retries) == (file, false)
    decreases retries - attempt
  {
    if attempt < retries {
      assert net(attempt, |file|) == Unusable;
      FullStaysStuck(file, e, src, hash, net, attempt + 1, retries);
    }
  }

  /** When no length is expected, even an honest server cannot help once the partial file is as long as
      the source or, unless the range is ignored, holds a wrong byte: success is possible exactly when the
      file is a proper prefix or the first answer is the whole source. */
  lemma UnknownLengthHealsIff(file: Bytes, src: Bytes, hash: Hash, net: Network, retries: nat)
    requires Digest(hash) && hash(src) != "" && Honest(net, src) && 1 <= retries
    ensures Attempts(file, Expected(0, hash(src)), hash, net, 0, retries).1
       <==> file == [] || file < src || net(0, |file|) == Body(true, src, true)
  {
    var e := Expected(0, hash(src));
    if file == [] || src == [] || net(0, |file|) == Body(true, src, true) {
      assert [] + src == src;
      DigestFold(hash, src, src);
    } else if |src| <= |file| {
      FullStaysStuck(file, e, src, hash, net, 0, retries);
    } else {
      ResumedIff(file, src, hash, net, retries);
    }
  }

  lemma ResumedIff(file: Bytes, src: Bytes, hash: Hash, net: Network, retries: nat)
    requires Digest(hash) && hash(src) != "" && Honest(net, src) && 1 <= retries
    requires 0 < |file| < |src| && net(0, |file|) == Body(false, src[|file|..], true)
    ensures Attempts(file, Expected(0, hash(src)), hash, net, 0, retries).1 <==> file < src
  {
    var e := Expected(0, hash(src));
    var now := file + src[|file|..];
    DigestFold(hash, now, src);
    assert Attempt(file, e, hash, Answers(net, 0)) == (now, Good(now, e, hash));
    assert now[..|file|] == file;
    if file < src {
      assert now == src;
    } else {
      FullStaysStuck(now, e, src, hash, net, 1, retries);
    }
  }
}
