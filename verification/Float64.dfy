/** What a whole number becomes when it is read as a 64-bit floating-point number and printed again.

    The decoder of the audit ledger reads every number of a free-form field that way
    (internal/audit/ledger.go, Unmarshal into map[string]any). Magnitudes stay below 10^20,
    where numbers are printed without an exponent. */
module Float64 {

  const MANTISSA := 0x20_0000_0000_0000   // 2^53

  /** The spacing of floating-point numbers around `n`, from 1 upwards. */
  function Ulp(n: nat): (u: nat)
    ensures 1 <= u
  {
    if n < MANTISSA then 1 else 2 * Ulp(n / 2)
  }

  /** The floating-point number nearest to `n`; a number half way goes to the even neighbour. */
  function Nearest(n: nat): nat {
    var u := Ulp(n);
    var q, r := n / u, n % u;
    if 2 * r < u || (2 * r == u && q % 2 == 0) then q * u else (q + 1) * u
  }

  /** The largest multiple of `p` up to `f`. */
  function Multiple(f: nat, p: nat): (lo: nat)
    requires 1 <= p
    ensures lo <= f < lo + p
  {
    f - f % p
  }

  function Pow10(k: nat): (p: nat)
    ensures 1 <= p
  {
    if k == 0 then 1 else 10 * Pow10(k - 1)
  }

  /** The decimal with the most trailing zeros, at most `k`, that reads as `f`; the nearer one of two. */
  function Shortest(f: nat, k: nat): nat {
    if k == 0 then f
    else
      var p := Pow10(k);
      var lo := Multiple(f, p);
      var hi := lo + p;
      var down := 2 * (f - lo) < p || (2 * (f - lo) == p && f / p % 2 == 0);
      var near, far := if down then lo else hi, if down then hi else lo;
      if Nearest(near) == f then near
      else if Nearest(far) == f then far
      else Shortest(f, k - 1)
  }

  /** What reading and printing makes of `n`. */
  function Reprinted(n: int): int {
    if n < 0 then 0 - Shortest(Nearest(-n), 20) else Shortest(Nearest(n), 20)
  }

  lemma {:induction false} UlpBound(n: nat)
    requires MANTISSA <= n
    ensures 2 <= Ulp(n) && Ulp(n) * 0x10_0000_0000_0000 <= n
  {
    if n / 2 >= MANTISSA {
      UlpBound(n / 2);
    }
  }

  lemma Quotient(n: nat, u: nat, q: nat)
    requires 1 <= u && u * q <= n
    ensures q <= n / u
  {
    var x := n / u;
    assert n < u * x + u;
    if x < q {
      Product(x + 1, q, u, u);
    }
  }

  lemma Product(a: nat, b: nat, c: nat, d: nat)
    requires a <= b && c <= d
    ensures a * c <= b * d
  {
    assert a * c <= b * c <= b * d;
  }

  /** Below 2^53 every whole number is a floating-point number, and none above reads as one of them. */
  lemma NearestSmall(n: nat)
    ensures n < MANTISSA ==> Nearest(n) == n
    ensures MANTISSA <= n ==> MANTISSA <= Nearest(n)
  {
    if MANTISSA <= n {
      UlpBound(n);
      var u := Ulp(n);
      Quotient(n, u, 0x10_0000_0000_0000);
      Product(0x10_0000_0000_0000, n / u, 2, u);
      Product(0x10_0000_0000_0000, n / u + 1, 2, u);
    }
  }

  lemma {:induction false} ShortestSmall(f: nat, k: nat)
    requires f < MANTISSA
    ensures Shortest(f, k) == f
  {
    if k > 0 {
      var lo := Multiple(f, Pow10(k));
      NearestSmall(lo);
      NearestSmall(lo + Pow10(k));
      ShortestSmall(f, k - 1);
    }
  }

  /** Numbers within the mantissa survive. */
  lemma SmallSurvives(n: int)
    requires -MANTISSA < n < MANTISSA
    ensures Reprinted(n) == n
  {
    var m: nat := if n < 0 then -n else n;
    NearestSmall(m);
    ShortestSmall(m, 20);
  }

  /** The first whole number that does not. */
  lemma FirstLost(n: nat)
    requires n == MANTISSA + 1
    ensures Reprinted(n) != n
  {
    HalfWay(n);
    LostAt(n, 20);
  }

  lemma HalfWay(n: nat)
    requires n == MANTISSA + 1
    ensures Nearest(n) == MANTISSA
  {
    assert Ulp(n / 2) == 1;
    assert Ulp(n) == 2;
  }

  lemma LostAt(n: nat, k: nat)
    requires n == MANTISSA + 1 && Nearest(n) == MANTISSA
    ensures Shortest(Nearest(n), k) != n
  {
    ShortestRound(Nearest(n), k);
  }

  /** The shortest decimal is the number itself or ends in a zero. */
  lemma {:induction false} ShortestRound(f: nat, k: nat)
    ensures Shortest(f, k) == f || Shortest(f, k) % 10 == 0
  {
    if k > 0 {
      ShortestRound(f, k - 1);
      TenDivides(f, Pow10(k - 1));
    }
  }

  lemma TenDivides(f: nat, p: nat)
    requires 1 <= p
    ensures Multiple(f, 10 * p) % 10 == 0 && (Multiple(f, 10 * p) + 10 * p) % 10 == 0
  {
    var q := f / (10 * p);
    assert Multiple(f, 10 * p) == 10 * p * q == 10 * (p * q);
    assert Multiple(f, 10 * p) + 10 * p == 10 * (p * q + p);
  }
}
