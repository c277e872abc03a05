/** Vocabulary shared by every module: results, bytes, digests and text folding. */
module Prelude {

  datatype Option<+T> = None | Some(value: T)

  datatype Result<+T, +E> = Success(value: T) | Failure(error: E)

  newtype byte = x: int | 0 <= x < 256

  type Bytes = seq<byte>

  // --- Text ---------------------------------------------------------------

  function LowerChar(c: char): char {
    if 'A' <= c <= 'Z' then (c as int + 32) as char else c
  }

  function Lower(s: string): string {
    seq(|s|, i requires 0 <= i < |s| => LowerChar(s[i]))
  }

  /** Case-insensitive comparison of ASCII text, the alphabet of digests. */
  predicate EqualFold(a: string, b: string) {
    Lower(a) == Lower(b)
  }

  predicate Blank(c: char) {
    c == ' ' || c == '\t' || c == '\r' || c == '\n'
  }

  function TrimSpace(s: string): string {
    if s == "" then s
    else if Blank(s[0]) then TrimSpace(s[1..])
    else if Blank(s[|s| - 1]) then TrimSpace(s[..|s| - 1])
    else s
  }

  lemma TrimNothing(s: string)
    requires s == "" || (!Blank(s[0]) && !Blank(s[|s| - 1]))
    ensures TrimSpace(s) == s
  {
  }

  /** What is left is the text between the outer blanks. */
  lemma {:induction false} TrimIs(front: string, t: string, back: string)
    requires forall i :: 0 <= i < |front| ==> front[i] in {' ', '\t', '\r', '\n'}
    requires forall i :: 0 <= i < |back| ==> back[i] in {' ', '\t', '\r', '\n'}
    requires t == "" || (t[0] !in {' ', '\t', '\r', '\n'} && t[|t| - 1] !in {' ', '\t', '\r', '\n'})
    ensures TrimSpace(front + t + back) == t
    decreases |front| + |back|
  {
    var s := front + t + back;
    if front != "" {
      assert s[0] == front[0];
      assert s[1..] == front[1..] + t + back;
      TrimIs(front[1..], t, back);
    } else if t == "" && back != "" {
      assert s == back;
      assert s[1..] == "" + t + back[1..];
      TrimIs("", t, back[1..]);
    } else if back != "" {
      assert s[0] == t[0] && s[|s| - 1] == back[|back| - 1];
      assert s[..|s| - 1] == "" + t + back[..|back| - 1];
      TrimIs("", t, back[..|back| - 1]);
    } else {
      assert s == t;
    }
  }

  /** Only the letters A to Z change, each to its lower-case form, in place. */
  lemma LowerIs(s: string, i: nat)
    requires i < |s|
    ensures |Lower(s)| == |s|
    ensures s[i] !in "ABCDEFGHIJKLMNOPQRSTUVWXYZ" ==> Lower(s)[i] == s[i]
    ensures forall k :: 0 <= k < 26 && s[i] == "ABCDEFGHIJKLMNOPQRSTUVWXYZ"[k] ==> Lower(s)[i] == "abcdefghijklmnopqrstuvwxyz"[k]
  {
    var capitals, small := "ABCDEFGHIJKLMNOPQRSTUVWXYZ", "abcdefghijklmnopqrstuvwxyz";
    assert forall k :: 0 <= k < 26 ==> capitals[k] as int == 65 + k && small[k] as int == 97 + k;
    if 'A' <= s[i] <= 'Z' {
      assert capitals[s[i] as int - 65] == s[i];
    }
  }

  // --- Digests ------------------------------------------------------------

  /** A cryptographic digest, idealised: distinct contents have distinct digests,
      and the hexadecimal text it yields is lower case. */
  ghost predicate Digest<T(!new)>(h: T -> string) {
    && (forall a, b :: h(a) == h(b) ==> a == b)
    && (forall a :: Lower(h(a)) == h(a))
  }

  lemma DigestFold<T(!new)>(h: T -> string, a: T, b: T)
    requires Digest(h)
    ensures EqualFold(h(a), h(b)) <==> a == b
  {
    assert Lower(h(a)) == h(a);
    assert Lower(h(b)) == h(b);
  }

  /** One hexadecimal digit. */
  function Nibble(i: nat): (c: char)
    requires i < 16
    ensures LowerChar(c) == c
  {
    if i < 10 then (48 + i) as char else (87 + i) as char
  }

  /** The four bits behind character `i` of the text of `b`. */
  function HalfByte(b: Bytes, i: nat): (n: nat)
    requires i < 2 * |b|
    ensures n < 16
  {
    if i % 2 == 0 then b[i / 2] as int / 16 else b[i / 2] as int % 16
  }

  /** Two characters for each byte: a digest that keeps everything. */
  function Hex(b: Bytes): (s: string)
    ensures |s| == 2 * |b|
  {
    seq(2 * |b|, i requires 0 <= i < 2 * |b| => Nibble(HalfByte(b, i)))
  }

  lemma SameByte(a: Bytes, b: Bytes, k: nat)
    requires Hex(a) == Hex(b) && k < |a| == |b|
    ensures a[k] == b[k]
  {
    assert Hex(a)[2 * k] == Nibble(a[k] as int / 16) && Hex(a)[2 * k + 1] == Nibble(a[k] as int % 16);
    assert Hex(b)[2 * k] == Nibble(b[k] as int / 16) && Hex(b)[2 * k + 1] == Nibble(b[k] as int % 16);
  }

  lemma HexInjective(a: Bytes, b: Bytes)
    requires Hex(a) == Hex(b)
    ensures a == b
  {
    assert |Hex(a)| == |Hex(b)|;
    forall k | 0 <= k < |a| ensures a[k] == b[k] {
      SameByte(a, b, k);
    }
  }

  lemma HexLower(b: Bytes)
    ensures Lower(Hex(b)) == Hex(b)
  {
  }

  /** The law of digests can be met. */
  lemma HexIsDigest()
    ensures Digest(Hex)
  {
    forall a, b | Hex(a) == Hex(b) ensures a == b {
      HexInjective(a, b);
    }
    forall a ensures Lower(Hex(a)) == Hex(a) {
      HexLower(a);
    }
  }

  /** Three bytes for each character. */
  function Encode(s: string): (b: Bytes)
    ensures |b| == 3 * |s|
  {
    if s == "" then []
    else
      var n := s[|s| - 1] as int;
      Encode(s[..|s| - 1]) + [(n / 65536) as byte, (n / 256 % 256) as byte, (n % 256) as byte]
  }

  lemma SameCode(m: nat, n: nat)
    requires m / 65536 == n / 65536 && m / 256 % 256 == n / 256 % 256 && m % 256 == n % 256
    ensures m == n
  {
    assert m == 256 * (m / 256) + m % 256 && n == 256 * (n / 256) + n % 256;
    assert m / 256 == 256 * (m / 65536) + m / 256 % 256 && n / 256 == 256 * (n / 65536) + n / 256 % 256;
  }

  lemma EncodeParts(s: string)
    requires s != ""
    ensures var n, b := s[|s| - 1] as int, Encode(s);
            && b[..|b| - 3] == Encode(s[..|s| - 1]) && b[|b| - 3] as int == n / 65536
            && b[|b| - 2] as int == n / 256 % 256 && b[|b| - 1] as int == n % 256
  {
  }

  lemma {:induction false} EncodeInjective(a: string, b: string)
    requires Encode(a) == Encode(b)
    ensures a == b
  {
    if a != "" && b != "" {
      EncodeParts(a);
      EncodeParts(b);
      SameCode(a[|a| - 1] as int, b[|b| - 1] as int);
      EncodeInjective(a[..|a| - 1], b[..|b| - 1]);
      assert a == a[..|a| - 1] + [a[|a| - 1]] && b == b[..|b| - 1] + [b[|b| - 1]];
    }
  }

  function TextHex(s: string): string {
    Hex(Encode(s))
  }

  lemma TextHexIsDigest()
    ensures Digest(TextHex)
  {
    forall a, b | TextHex(a) == TextHex(b) ensures a == b {
      HexInjective(Encode(a), Encode(b));
      EncodeInjective(a, b);
    }
    forall a ensures Lower(TextHex(a)) == TextHex(a) {
      HexLower(Encode(a));
    }
  }

  // --- Arithmetic ---------------------------------------------------------

  function Min(a: int, b: int): int {
    if a < b then a else b
  }

  function Max(a: int, b: int): int {
    if a < b then b else a
  }

  lemma {:induction false} MulGap(d: nat, a: int, b: int)
    requires a < b
    ensures d * a + d <= d * b
    decreases b - a
  {
    if a + 1 < b {
      MulGap(d, a, b - 1);
      assert d * b == d * (b - 1) + d;
    }
  }

  lemma DivUnique(x: int, d: int, q: int, t: int)
    requires 0 < d && 0 <= t < d && x == d * q + t
    ensures x / d == q && x % d == t
  {
    var q' := x / d;
    assert x == d * q' + x % d;
    if q < q' {
      MulGap(d, q, q');
    } else if q' < q {
      MulGap(d, q', q);
    }
  }
}
