/** The encrypted stream format of replication transfers (internal/replication/crypto.go).
    Key agreement and the AEAD are parameters constrained by `Lawful`. */
module Frames {
  import opened Prelude

  const MAGIC: Bytes := [0x52, 0x41, 0x52, 0x4B, 0x52, 0x50, 0x4C, 0x31]   // "RARKRPL1"
  const CHUNK_SIZE := 1048576
  const MAX_FRAME := CHUNK_SIZE + 128
  const KEY_SIZE := 32
  const NONCE_SIZE := 12
  const OVERHEAD := 16

  datatype Suite = Suite(
    publicOf: Bytes -> Bytes,
    agree: (Bytes, Bytes) -> Option<Bytes>,
    derive: (Bytes, Bytes, Bytes) -> Bytes,
    seal: (Bytes, Bytes, Bytes) -> Bytes,
    open: (Bytes, Bytes, Bytes) -> Option<Bytes>)

  /** Both sides agree on one secret, and what is sealed under a key and nonce opens under them. */
  ghost predicate Lawful(s: Suite) {
    && (forall a :: |s.publicOf(a)| == KEY_SIZE)
    && (forall a, b :: s.agree(a, s.publicOf(b)) == s.agree(b, s.publicOf(a)))
    && (forall key, nonce, plain :: |s.seal(key, nonce, plain)| == |plain| + OVERHEAD)
    && (forall key, nonce, plain :: s.open(key, nonce, s.seal(key, nonce, plain)) == Some(plain))
  }

  datatype Error = BadMagic | Truncated | NoAgreement | FrameTooLarge | NotAuthentic

  // --- Frame lengths ----------------------------------------------------------------------

  /** A length in four bytes, most significant first. */
  function Word(n: nat): (w: Bytes)
    requires n < 0x1_0000_0000
    ensures |w| == 4
  {
    [(n / 0x100 / 0x100 / 0x100) as byte, (n / 0x100 / 0x100 % 0x100) as byte, (n / 0x100 % 0x100) as byte, (n % 0x100) as byte]
  }

  function Value(w: Bytes): nat
    requires |w| == 4
  {
    ((w[0] as nat * 0x100 + w[1] as nat) * 0x100 + w[2] as nat) * 0x100 + w[3] as nat
  }

  lemma WordValue(n: nat)
    requires n < 0x1_0000_0000
    ensures Value(Word(n)) == n
  {
    var a := n / 0x100;
    var b := a / 0x100;
    var c := b / 0x100;
    assert b == c * 0x100 + b % 0x100;
    assert a == b * 0x100 + a % 0x100;
    assert n == a * 0x100 + n % 0x100;
  }

  // --- The stream -----------------------------------------------------------------------------

  /** The pieces are what the source's reads returned, one after the other. */
  ghost predicate Readings(pieces: seq<Bytes>) {
    forall i :: 0 <= i < |pieces| ==> |pieces[i]| <= CHUNK_SIZE
  }

  function Joined(pieces: seq<Bytes>): Bytes {
    if pieces == [] then [] else pieces[0] + Joined(pieces[1..])
  }

  ghost predicate Nonces(nonce: nat -> Bytes) {
    forall i: nat :: |nonce(i)| == NONCE_SIZE
  }

  function Frame(s: Suite, key: Bytes, nonce: Bytes, plain: Bytes): Bytes
    requires |s.seal(key, nonce, plain)| < 0x1_0000_0000
  {
    Word(|s.seal(key, nonce, plain)|) + nonce + s.seal(key, nonce, plain)
  }

  /** One frame per non-empty read, then the terminator. */
  function Stream(s: Suite, key: Bytes, nonce: nat -> Bytes, pieces: seq<Bytes>, i: nat): Bytes
    requires Lawful(s) && Readings(pieces) && i <= |pieces|
    decreases |pieces| - i
  {
    if i == |pieces| then Word(0)
    else (if pieces[i] == [] then [] else Frame(s, key, nonce(i), pieces[i])) + Stream(s, key, nonce, pieces, i + 1)
  }

  function Header(s: Suite, ephemeral: Bytes): Bytes {
    MAGIC + s.publicOf(ephemeral)
  }

  function SessionKey(s: Suite, shared: Bytes, ephemeralPublic: Bytes, destination: Bytes): Bytes {
    s.derive(shared, ephemeralPublic, destination)
  }

  method Encrypt(s: Suite, pieces: seq<Bytes>, destination: Bytes, ephemeral: Bytes, nonce: nat -> Bytes)
    returns (r: Result<Bytes, Error>)
    requires Lawful(s) && Readings(pieces)
    ensures r == match s.agree(ephemeral, destination)
                 case None => Failure(NoAgreement)
                 case Some(shared) =>
                   var key := SessionKey(s, shared, s.publicOf(ephemeral), destination);
                   Success(Header(s, ephemeral) + Stream(s, key, nonce, pieces, 0))
  {
    var shared := s.agree(ephemeral, destination);
    if shared.None? {
      return Failure(NoAgreement);
    }
    var key := SessionKey(s, shared.value, s.publicOf(ephemeral), destination);
    ghost var whole := Header(s, ephemeral) + Stream(s, key, nonce, pieces, 0);
    var out := MAGIC + s.publicOf(ephemeral);
    for i := 0 to |pieces|
      invariant out + Stream(s, key, nonce, pieces, i) == whole
    {
      if |pieces[i]| > 0 {
        var sealed := s.seal(key, nonce(i), pieces[i]);
        if |sealed| > MAX_FRAME {
          return Failure(FrameTooLarge);
        }
        FrameJoins(out, Frame(s, key, nonce(i), pieces[i]), Stream(s, key, nonce, pieces, i + 1));
        out := out + (Word(|sealed|) + nonce(i) + sealed);
      } else {
        assert [] + Stream(s, key, nonce, pieces, i + 1) == Stream(s, key, nonce, pieces, i + 1);
      }
    }
    r := Success(out + Word(0));
  }

  lemma FrameJoins(a: Bytes, b: Bytes, c: Bytes)
    ensures a + (b + c) == a + b + c
  {
  }

  // --- Reading it back -----------------------------------------------------------------------------

  function Prepend(plain: Bytes, r: Result<Bytes, Error>): Result<Bytes, Error> {
    match r
    case Success(rest) => Success(plain + rest)
    case Failure(e) => Failure(e)
  }

  /** The frame loop; what follows the terminator is not read. */
  function Decoded(s: Suite, key: Bytes, input: Bytes): Result<Bytes, Error>
    decreases |input|
  {
    if |input| < 4 then Failure(Truncated)
    else
      var n := Value(input[..4]);
      if n == 0 then Success([])
      else if n > MAX_FRAME then Failure(FrameTooLarge)
      else if |input| < 4 + NONCE_SIZE + n then Failure(Truncated)
      else
        match s.open(key, input[4..4 + NONCE_SIZE], input[4 + NONCE_SIZE..4 + NONCE_SIZE + n])
        case None => Failure(NotAuthentic)
        case Some(plain) => Prepend(plain, Decoded(s, key, input[4 + NONCE_SIZE + n..]))
  }

  function Decrypted(s: Suite, input: Bytes, private: Bytes): Result<Bytes, Error> {
    if |input| < |MAGIC| then Failure(Truncated)
    else if input[..|MAGIC|] != MAGIC then Failure(BadMagic)
    else if |input| < |MAGIC| + KEY_SIZE then Failure(Truncated)
    else
      var ephemeral := input[|MAGIC|..|MAGIC| + KEY_SIZE];
      match s.agree(private, ephemeral)
      case None => Failure(NoAgreement)
      case Some(shared) => Decoded(s, SessionKey(s, shared, ephemeral, s.publicOf(private)), input[|MAGIC| + KEY_SIZE..])
  }

  method Decrypt(s: Suite, input: Bytes, private: Bytes) returns (r: Result<Bytes, Error>)
    ensures r == Decrypted(s, input, private)
  {
    if |input| < |MAGIC| {
      return Failure(Truncated);
    }
    if input[..|MAGIC|] != MAGIC {
      return Failure(BadMagic);
    }
    if |input| < |MAGIC| + KEY_SIZE {
      return Failure(Truncated);
    }
    var ephemeral := input[|MAGIC|..|MAGIC| + KEY_SIZE];
    var shared := s.agree(private, ephemeral);
    if shared.None? {
      return Failure(NoAgreement);
    }
    r := DecodeFrames(s, SessionKey(s, shared.value, ephemeral, s.publicOf(private)), input[|MAGIC| + KEY_SIZE..]);
  }

  method DecodeFrames(s: Suite, key: Bytes, input: Bytes) returns (r: Result<Bytes, Error>)
    ensures r == Decoded(s, key, input)
  {
    var out, rest := [], input;
    ghost var want := Decoded(s, key, input);
    PrependNothing(want);
    while |rest| >= 4
      invariant Prepend(out, Decoded(s, key, rest)) == want
      decreases |rest|
    {
      var n := Value(rest[..4]);
      if n == 0 {
        assert out + [] == out;
        return Success(out);
      }
      if n > MAX_FRAME {
        return Failure(FrameTooLarge);
      }
      if |rest| < 4 + NONCE_SIZE + n {
        return Failure(Truncated);
      }
      var plain := s.open(key, rest[4..4 + NONCE_SIZE], rest[4 + NONCE_SIZE..4 + NONCE_SIZE + n]);
      if plain.None? {
        return Failure(NotAuthentic);
      }
      PrependTwice(out, plain.value, Decoded(s, key, rest[4 + NONCE_SIZE + n..]));
      out, rest := out + plain.value, rest[4 + NONCE_SIZE + n..];
    }
    r := Failure(Truncated);
  }

  lemma PrependNothing(r: Result<Bytes, Error>)
    ensures Prepend([], r) == r
  {
    if r.Success? {
      assert [] + r.value == r.value;
    }
  }

  lemma PrependTwice(a: Bytes, b: Bytes, r: Result<Bytes, Error>)
    ensures Prepend(a, Prepend(b, r)) == Prepend(a + b, r)
  {
    if r.Success? {
      assert a + (b + r.value) == a + b + r.value;
    }
  }

  // --- Round trip -------------------------------------------------------------------------------------

  /** A data frame never looks like the terminator and never exceeds the limit. */
  lemma FrameLength(s: Suite, key: Bytes, nonce: Bytes, plain: Bytes)
    requires Lawful(s) && 0 < |plain| <= CHUNK_SIZE && |nonce| == NONCE_SIZE
    ensures var f := Frame(s, key, nonce, plain);
            && |f| == 4 + NONCE_SIZE + |s.seal(key, nonce, plain)|
            && 0 < Value(f[..4]) == |s.seal(key, nonce, plain)| <= MAX_FRAME
            && f[4..4 + NONCE_SIZE] == nonce && f[4 + NONCE_SIZE..] == s.seal(key, nonce, plain)
  {
    var n := |s.seal(key, nonce, plain)|;
    WordValue(n);
    assert Frame(s, key, nonce, plain)[..4] == Word(n);
  }

  /** Reading one whole frame, whatever follows it. */
  lemma FrameDecodes(s: Suite, key: Bytes, nonce: Bytes, plain: Bytes, rest: Bytes)
    requires Lawful(s) && 0 < |plain| <= CHUNK_SIZE && |nonce| == NONCE_SIZE
    ensures Decoded(s, key, Frame(s, key, nonce, plain) + rest) == Prepend(plain, Decoded(s, key, rest))
  {
    var f := Frame(s, key, nonce, plain);
    FrameLength(s, key, nonce, plain);
    var input := f + rest;
    assert input[..4] == f[..4];
    assert input[4..4 + NONCE_SIZE] == f[4..4 + NONCE_SIZE];
    assert input[4 + NONCE_SIZE..|f|] == f[4 + NONCE_SIZE..];
    assert input[|f|..] == rest;
  }

  /** However the source splits its reads, and whatever follows the terminator. */
  lemma {:induction false} StreamDecodes(s: Suite, key: Bytes, nonce: nat -> Bytes, pieces: seq<Bytes>, i: nat, extra: Bytes)
    requires Lawful(s) && Readings(pieces) && Nonces(nonce) && i <= |pieces|
    ensures Decoded(s, key, Stream(s, key, nonce, pieces, i) + extra) == Success(Joined(pieces[i..]))
    decreases |pieces| - i
  {
    if i == |pieces| {
      WordValue(0);
      assert (Word(0) + extra)[..4] == Word(0);
    } else {
      var rest := Stream(s, key, nonce, pieces, i + 1);
      StreamDecodes(s, key, nonce, pieces, i + 1, extra);
      assert pieces[i..][1..] == pieces[i + 1..];
      if pieces[i] == [] {
        assert [] + rest == rest;
        assert [] + Joined(pieces[i + 1..]) == Joined(pieces[i + 1..]);
      } else {
        FrameDecodes(s, key, nonce(i), pieces[i], rest + extra);
        FrameJoins(Frame(s, key, nonce(i), pieces[i]), rest, extra);
      }
    }
  }

  lemma HeaderParts(s: Suite, ephemeral: Bytes, body: Bytes)
    requires Lawful(s)
    ensures var input := Header(s, ephemeral) + body;
            && |input| == |MAGIC| + KEY_SIZE + |body| && input[..|MAGIC|] == MAGIC
            && input[|MAGIC|..|MAGIC| + KEY_SIZE] == s.publicOf(ephemeral) && input[|MAGIC| + KEY_SIZE..] == body
  {
  }

  /** Decrypting what was encrypted for a key returns the source's bytes. */
  lemma RoundTrip(s: Suite, pieces: seq<Bytes>, private: Bytes, ephemeral: Bytes, nonce: nat -> Bytes, shared: Bytes)
    requires Lawful(s) && Readings(pieces) && Nonces(nonce)
    requires s.agree(ephemeral, s.publicOf(private)) == Some(shared)
    ensures var key := SessionKey(s, shared, s.publicOf(ephemeral), s.publicOf(private));
            Decrypted(s, Header(s, ephemeral) + Stream(s, key, nonce, pieces, 0), private) == Success(Joined(pieces))
  {
    var key := SessionKey(s, shared, s.publicOf(ephemeral), s.publicOf(private));
    var body := Stream(s, key, nonce, pieces, 0);
    StreamDecodes(s, key, nonce, pieces, 0, []);
    assert body + [] == body && pieces[0..] == pieces;
    HeaderParts(s, ephemeral, body);
  }

  // --- Truncation -----------------------------------------------------------------------------------------

  lemma {:induction false} StreamPrefixFails(s: Suite, key: Bytes, nonce: nat -> Bytes, pieces: seq<Bytes>, i: nat, n: nat)
    requires Lawful(s) && Readings(pieces) && Nonces(nonce) && i <= |pieces|
    requires n < |Stream(s, key, nonce, pieces, i)|
    ensures Decoded(s, key, Stream(s, key, nonce, pieces, i)[..n]) == Failure(Truncated)
    decreases |pieces| - i
  {
    if i < |pieces| {
      var rest := Stream(s, key, nonce, pieces, i + 1);
      if pieces[i] == [] {
        assert [] + rest == rest;
        StreamPrefixFails(s, key, nonce, pieces, i + 1, n);
      } else {
        var f := Frame(s, key, nonce(i), pieces[i]);
        if |f| <= n {
          StreamPrefixFails(s, key, nonce, pieces, i + 1, n - |f|);
        }
        CutAfterFrame(s, key, nonce(i), pieces[i], rest, n);
      }
    }
  }

  /** A cut inside a frame fails; a cut behind it fails if what follows the frame does. */
  lemma CutAfterFrame(s: Suite, key: Bytes, nonce: Bytes, plain: Bytes, rest: Bytes, n: nat)
    requires Lawful(s) && 0 < |plain| <= CHUNK_SIZE && |nonce| == NONCE_SIZE
    requires var f := Frame(s, key, nonce, plain);
             n <= |f| + |rest| && (|f| <= n ==> Decoded(s, key, rest[..n - |f|]) == Failure(Truncated))
    ensures Decoded(s, key, (Frame(s, key, nonce, plain) + rest)[..n]) == Failure(Truncated)
  {
    var f := Frame(s, key, nonce, plain);
    if n < |f| {
      assert (f + rest)[..n] == f[..n];
      CutFrameFails(s, key, nonce, plain, n);
    } else {
      assert (f + rest)[..n] == f + rest[..n - |f|];
      FrameDecodes(s, key, nonce, plain, rest[..n - |f|]);
    }
  }

  lemma CutFrameFails(s: Suite, key: Bytes, nonce: Bytes, plain: Bytes, n: nat)
    requires Lawful(s) && 0 < |plain| <= CHUNK_SIZE && |nonce| == NONCE_SIZE
    requires n < |Frame(s, key, nonce, plain)|
    ensures Decoded(s, key, Frame(s, key, nonce, plain)[..n]) == Failure(Truncated)
  {
    var f := Frame(s, key, nonce, plain);
    FrameLength(s, key, nonce, plain);
    if 4 <= n {
      assert f[..n][..4] == f[..4];
    }
  }

  /** Every strict prefix of an encrypted stream is rejected, as cut short. */
  lemma PrefixRejected(s: Suite, pieces: seq<Bytes>, private: Bytes, ephemeral: Bytes, nonce: nat -> Bytes, shared: Bytes, n: nat)
    requires Lawful(s) && Readings(pieces) && Nonces(nonce)
    requires s.agree(ephemeral, s.publicOf(private)) == Some(shared)
    requires var key := SessionKey(s, shared, s.publicOf(ephemeral), s.publicOf(private));
             n < |Header(s, ephemeral) + Stream(s, key, nonce, pieces, 0)|
    ensures var key := SessionKey(s, shared, s.publicOf(ephemeral), s.publicOf(private));
            Decrypted(s, (Header(s, ephemeral) + Stream(s, key, nonce, pieces, 0))[..n], private) == Failure(Truncated)
  {
    var key := SessionKey(s, shared, s.publicOf(ephemeral), s.publicOf(private));
    var head, body := Header(s, ephemeral), Stream(s, key, nonce, pieces, 0);
    if n < |head| {
      assert (head + body)[..n] == head[..n];
      assert n >= |MAGIC| ==> head[..n][..|MAGIC|] == MAGIC;
    } else {
      assert (head + body)[..n] == head + body[..n - |head|];
      HeaderParts(s, ephemeral, body[..n - |head|]);
      StreamPrefixFails(s, key, nonce, pieces, 0, n - |head|);
    }
  }

  // --- The laws can be met ----------------------------------------------------------------------------------

  function Tag(): Bytes {
    seq(OVERHEAD, _ => 0)
  }

  /** A suite without secrecy, to show that the laws are consistent. */
  const OPEN_SUITE := Suite(
    _ => seq(KEY_SIZE, _ => 0),
    (_, _) => Some([]),
    (_, _, _) => [],
    (_, _, plain: Bytes) => plain + Tag(),
    (_, _, sealed: Bytes) => if |sealed| < OVERHEAD then None else Some(sealed[..|sealed| - OVERHEAD]))

  lemma OpenSuiteIsLawful()
    ensures Lawful(OPEN_SUITE)
  {
    forall plain: Bytes ensures (plain + Tag())[..|plain + Tag()| - OVERHEAD] == plain {
    }
  }
}
