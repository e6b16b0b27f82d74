/** What the constants of SHA-256 are: bits of square and cube roots of primes, as FIPS 180-4 says. */
module Sha256Constants {
  import opened Sha256Spec

  // ---------------------------------------------------------------- the primes

  predicate Prime(n: nat) { n >= 2 && forall d | 2 <= d < n :: n % d != 0 }

  /** The test against the primes below 19, which decides for every number below 19 * 19. */
  predicate Sieve(n: nat) {
    n >= 2 && (n == 2 || n % 2 != 0) && (n == 3 || n % 3 != 0) && (n == 5 || n % 5 != 0) && (n == 7 || n % 7 != 0) &&
    (n == 11 || n % 11 != 0) && (n == 13 || n % 13 != 0) && (n == 17 || n % 17 != 0)
  }

  lemma Factor(n: nat, d: nat, f: nat)
    requires f > 0 && d > 0 && n % d == 0 && d % f == 0
    ensures n % f == 0
  {
    var q, e := n / d, d / f;
    assert n == d * q && d == f * e;
    assert n == f * (e * q);
    Divides(f, e * q);
  }

  /** A number with a small divisor does not pass, unless it is a small prime itself. */
  lemma SmallDivisor(n: nat, d: nat)
    requires 2 <= d <= 18 && d < n && n % d == 0
    ensures !Sieve(n)
  {
    if d == 2 || d == 4 || d == 6 || d == 8 || d == 10 || d == 12 || d == 14 || d == 16 || d == 18 {
      Factor(n, d, 2);
    } else if d == 3 || d == 9 || d == 15 {
      Factor(n, d, 3);
    } else {
      assert d == 5 || d == 7 || d == 11 || d == 13 || d == 17;
    }
  }

  lemma SieveIsPrime(n: nat)
    requires n < 361
    ensures Sieve(n) <==> Prime(n)
  {
    if Prime(n) {
      PrimePasses(n);
    } else if Sieve(n) {
      hide Sieve;
      var d :| 2 <= d < n && n % d == 0;
      if d <= 18 {
        SmallDivisor(n, d);
      } else {
        SmallCofactor(n, d);
        SmallDivisor(n, n / d);
      }
    }
  }

  lemma PrimePasses(n: nat)
    requires Prime(n)
    ensures Sieve(n)
  {
    assert n > 2 ==> n % 2 != 0;
    assert n > 3 ==> n % 3 != 0;
    assert n > 5 ==> n % 5 != 0;
    assert n > 7 ==> n % 7 != 0;
    assert n > 11 ==> n % 11 != 0;
    assert n > 13 ==> n % 13 != 0;
    assert n > 17 ==> n % 17 != 0;
  }

  lemma Times(a: nat, b: nat, c: nat)
    requires a <= b
    ensures a * c <= b * c && c * a <= c * b
  {}

  lemma SmallCofactor(n: nat, d: nat)
    requires n < 361 && 18 < d < n && n % d == 0
    ensures 2 <= n / d <= 18 && n % (n / d) == 0 && n / d < n
  {
    var q := n / d;
    assert n == q * d;
    if q >= 19 {
      Times(19, q, d);
    }
    if q <= 1 {
      Times(q, 1, d);
    }
    Divides(q, d);
  }

  lemma Divides(q: nat, d: nat)
    requires q > 0
    ensures (q * d) % q == 0
  {
    var r, k := (q * d) % q, (q * d) / q;
    assert q * d == q * k + r;
    if k < d {
      Times(k + 1, d, q);
    } else if k > d {
      Times(d + 1, k, q);
    }
  }

  /** The first 64 primes, eight to a row. */
  const PRIMES: seq<seq<nat>> := [
    [2, 3, 5, 7, 11, 13, 17, 19],
    [23, 29, 31, 37, 41, 43, 47, 53],
    [59, 61, 67, 71, 73, 79, 83, 89],
    [97, 101, 103, 107, 109, 113, 127, 131],
    [137, 139, 149, 151, 157, 163, 167, 173],
    [179, 181, 191, 193, 197, 199, 211, 223],
    [227, 229, 233, 239, 241, 251, 257, 263],
    [269, 271, 277, 281, 283, 293, 307, 311]]

  function NthPrime(t: nat): nat
    requires t < 64
  {
    PRIMES[t / 8][t % 8]
  }

  /** None of the `k` numbers from `lo` on passes the test. */
  predicate Empty(lo: nat, k: nat)
    decreases k
  {
    k > 0 ==> !Sieve(lo) && Empty(lo + 1, k - 1)
  }

  lemma {:induction false} NoneIn(lo: nat, k: nat, n: nat)
    requires Empty(lo, k) && lo <= n < lo + k
    ensures !Sieve(n)
    decreases k
  {
    if lo < n {
      NoneIn(lo + 1, k - 1, n);
    }
  }

  /** What lies between two primes of the table. */
  predicate GapAfter(t: nat)
    requires t < 63
  {
    NthPrime(t) < NthPrime(t + 1) && Empty(NthPrime(t) + 1, NthPrime(t + 1) - NthPrime(t) - 1)
  }

  lemma Gaps0()
    ensures Empty(3, 0) && Empty(4, 1) && Empty(6, 1) && Empty(8, 3)
    ensures Empty(12, 1) && Empty(14, 3) && Empty(18, 1) && Empty(20, 3)
  {}

  lemma Row0()
    ensures GapAfter(0) && GapAfter(1) && GapAfter(2) && GapAfter(3)
    ensures GapAfter(4) && GapAfter(5) && GapAfter(6) && GapAfter(7)
  {
    hide Empty;
    Gaps0();
  }

  lemma Gaps1()
    ensures Empty(24, 5) && Empty(30, 1) && Empty(32, 5) && Empty(38, 3)
    ensures Empty(42, 1) && Empty(44, 3) && Empty(48, 5) && Empty(54, 5)
  {}

  lemma Row1()
    ensures GapAfter(8) && GapAfter(9) && GapAfter(10) && GapAfter(11)
    ensures GapAfter(12) && GapAfter(13) && GapAfter(14) && GapAfter(15)
  {
    hide Empty;
    Gaps1();
  }

  lemma Gaps2()
    ensures Empty(60, 1) && Empty(62, 5) && Empty(68, 3) && Empty(72, 1)
    ensures Empty(74, 5) && Empty(80, 3) && Empty(84, 5) && Empty(90, 7)
  {}

  lemma Row2()
    ensures GapAfter(16) && GapAfter(17) && GapAfter(18) && GapAfter(19)
    ensures GapAfter(20) && GapAfter(21) && GapAfter(22) && GapAfter(23)
  {
    hide Empty;
    Gaps2();
  }

  lemma Gaps3()
    ensures Empty(98, 3) && Empty(102, 1) && Empty(104, 3) && Empty(108, 1)
    ensures Empty(110, 3) && Empty(114, 13) && Empty(128, 3) && Empty(132, 5)
  {}

  lemma Row3()
    ensures GapAfter(24) && GapAfter(25) && GapAfter(26) && GapAfter(27)
    ensures GapAfter(28) && GapAfter(29) && GapAfter(30) && GapAfter(31)
  {
    hide Empty;
    Gaps3();
  }

  lemma Gaps4()
    ensures Empty(138, 1) && Empty(140, 9) && Empty(150, 1) && Empty(152, 5)
    ensures Empty(158, 5) && Empty(164, 3) && Empty(168, 5) && Empty(174, 5)
  {}

  lemma Row4()
    ensures GapAfter(32) && GapAfter(33) && GapAfter(34) && GapAfter(35)
    ensures GapAfter(36) && GapAfter(37) && GapAfter(38) && GapAfter(39)
  {
    hide Empty;
    Gaps4();
  }

  lemma Gaps5()
    ensures Empty(180, 1) && Empty(182, 9) && Empty(192, 1) && Empty(194, 3)
    ensures Empty(198, 1) && Empty(200, 11) && Empty(212, 11) && Empty(224, 3)
  {}

  lemma Row5()
    ensures GapAfter(40) && GapAfter(41) && GapAfter(42) && GapAfter(43)
    ensures GapAfter(44) && GapAfter(45) && GapAfter(46) && GapAfter(47)
  {
    hide Empty;
    Gaps5();
  }

  lemma Gaps6()
    ensures Empty(228, 1) && Empty(230, 3) && Empty(234, 5) && Empty(240, 1)
    ensures Empty(242, 9) && Empty(252, 5) && Empty(258, 5) && Empty(264, 5)
  {}

  lemma Row6()
    ensures GapAfter(48) && GapAfter(49) && GapAfter(50) && GapAfter(51)
    ensures GapAfter(52) && GapAfter(53) && GapAfter(54) && GapAfter(55)
  {
    hide Empty;
    Gaps6();
  }

  lemma Gaps7()
    ensures Empty(270, 1) && Empty(272, 5) && Empty(278, 3) && Empty(282, 1)
    ensures Empty(284, 9) && Empty(294, 13) && Empty(308, 3)
  {}

  lemma Row7()
    ensures GapAfter(56) && GapAfter(57) && GapAfter(58) && GapAfter(59)
    ensures GapAfter(60) && GapAfter(61) && GapAfter(62)
  {
    hide Empty;
    Gaps7();
  }

  lemma Gap(t: nat)
    requires t < 63
    ensures GapAfter(t)
  {
    hide GapAfter;
    if t < 32 {
      Row0();
      Row1();
      Row2();
      Row3();
    } else {
      Row4();
      Row5();
      Row6();
      Row7();
    }
  }

  lemma {:induction false} Listed(n: nat, t: nat)
    requires t < 64 && n <= NthPrime(t) && Sieve(n)
    ensures exists u :: 0 <= u < 64 && NthPrime(u) == n
  {
    hide Sieve, Empty, NthPrime;
    if n == NthPrime(t) {
    } else if t == 0 {
      First(n);
    } else if n <= NthPrime(t - 1) {
      Listed(n, t - 1);
    } else {
      Gap(t - 1);
      NoneIn(NthPrime(t - 1) + 1, NthPrime(t) - NthPrime(t - 1) - 1, n);
    }
  }

  lemma First(n: nat)
    requires n <= NthPrime(0) && Sieve(n)
    ensures n == NthPrime(0)
  {}

  /** The table holds the first primes: every prime up to 311 is in it, ... */
  lemma EveryPrimeListed(n: nat)
    requires n <= 311 && Prime(n)
    ensures exists t :: 0 <= t < 64 && NthPrime(t) == n
  {
    SieveIsPrime(n);
    Listed(n, 63);
  }

  /** ... nothing else is, ... */
  lemma EveryListedPrime(t: nat)
    requires t < 64
    ensures Prime(NthPrime(t)) && NthPrime(t) <= 311
  {
    RowBounds(t / 8, t % 8);
    SieveIsPrime(NthPrime(t));
  }

  lemma RowBounds(i: nat, k: nat)
    requires i < 8 && k < 8
    ensures Sieve(PRIMES[i][k]) && PRIMES[i][k] <= 311
  {
    assert i == 0 || i == 1 || i == 2 || i == 3 || i == 4 || i == 5 || i == 6 || i == 7;
    assert k == 0 || k == 1 || k == 2 || k == 3 || k == 4 || k == 5 || k == 6 || k == 7;
  }

  /** ... and they are in increasing order, so NthPrime(t) has exactly t primes below it. */
  lemma PrimesIncrease(t: nat)
    requires t < 63
    ensures NthPrime(t) < NthPrime(t + 1)
  {
    Gap(t);
  }

  // ---------------------------------------------------------------- the roots

  /** The integer part of the cube root of `p`, scaled by 2^32. */
  predicate IsCubeRoot(n: nat, p: nat) {
    n * n * n <= p * 0x1_0000_0000_0000_0000_0000_0000 < (n + 1) * (n + 1) * (n + 1)
  }

  predicate IsSquareRoot(n: nat, p: nat) {
    n * n <= p * 0x1_0000_0000_0000_0000 < (n + 1) * (n + 1)
  }

  /** The first 32 bits of the fraction: what follows the whole part `c` of the root. */
  predicate CubeRootBits(p: nat, c: nat, w: bv32) { IsCubeRoot(0x1_0000_0000 * c + w as int, p) }

  predicate SquareRootBits(p: nat, c: nat, w: bv32) { IsSquareRoot(0x1_0000_0000 * c + w as int, p) }

  /** The whole part of the cube root of a number below 343. */
  function WholeRoot(p: nat): nat {
    if p < 8 then 1 else if p < 27 then 2 else if p < 64 then 3 else if p < 125 then 4 else if p < 216 then 5 else 6
  }

  predicate RootAt(i: nat, k: nat)
    requires i < 8 && k < 8
  {
    CubeRootBits(PRIMES[i][k], WholeRoot(PRIMES[i][k]), K[i][k])
  }

  lemma Roots0()
    ensures RootAt(0, 0) && RootAt(0, 1) && RootAt(0, 2) && RootAt(0, 3)
    ensures RootAt(0, 4) && RootAt(0, 5) && RootAt(0, 6) && RootAt(0, 7)
  {}

  lemma Roots1()
    ensures RootAt(1, 0) && RootAt(1, 1) && RootAt(1, 2) && RootAt(1, 3)
    ensures RootAt(1, 4) && RootAt(1, 5) && RootAt(1, 6) && RootAt(1, 7)
  {}

  lemma Roots2()
    ensures RootAt(2, 0) && RootAt(2, 1) && RootAt(2, 2) && RootAt(2, 3)
    ensures RootAt(2, 4) && RootAt(2, 5) && RootAt(2, 6) && RootAt(2, 7)
  {}

  lemma Roots3()
    ensures RootAt(3, 0) && RootAt(3, 1) && RootAt(3, 2) && RootAt(3, 3)
    ensures RootAt(3, 4) && RootAt(3, 5) && RootAt(3, 6) && RootAt(3, 7)
  {}

  lemma Roots4()
    ensures RootAt(4, 0) && RootAt(4, 1) && RootAt(4, 2) && RootAt(4, 3)
    ensures RootAt(4, 4) && RootAt(4, 5) && RootAt(4, 6) && RootAt(4, 7)
  {}

  lemma Roots5()
    ensures RootAt(5, 0) && RootAt(5, 1) && RootAt(5, 2) && RootAt(5, 3)
    ensures RootAt(5, 4) && RootAt(5, 5) && RootAt(5, 6) && RootAt(5, 7)
  {}

  lemma Roots6()
    ensures RootAt(6, 0) && RootAt(6, 1) && RootAt(6, 2) && RootAt(6, 3)
    ensures RootAt(6, 4) && RootAt(6, 5) && RootAt(6, 6) && RootAt(6, 7)
  {}

  lemma Roots7()
    ensures RootAt(7, 0) && RootAt(7, 1) && RootAt(7, 2) && RootAt(7, 3)
    ensures RootAt(7, 4) && RootAt(7, 5) && RootAt(7, 6) && RootAt(7, 7)
  {}

  /**
   * Section 4.2.2: every round constant is the first 32 bits of the fraction of the cube root of its prime. The root has
   * one whole part and one fraction only, so this says what the constant is.
   */
  lemma RoundConstantsAreRoots(t: nat)
    requires t < 64
    ensures CubeRootBits(NthPrime(t), WholeRoot(NthPrime(t)), RoundConstant(t))
  {
    var i, k := t / 8, t % 8;
    assert RootAt(i, k) by {
      hide RootAt;
      Roots0();
      Roots1();
      Roots2();
      Roots3();
      Roots4();
      Roots5();
      Roots6();
      Roots7();
      assert i == 0 || i == 1 || i == 2 || i == 3 || i == 4 || i == 5 || i == 6 || i == 7;
      assert k == 0 || k == 1 || k == 2 || k == 3 || k == 4 || k == 5 || k == 6 || k == 7;
    }
  }

  lemma OneCubeRoot(p: nat, n: nat, m: nat)
    requires IsCubeRoot(n, p) && IsCubeRoot(m, p)
    ensures n == m
  {
    if n > m {
      Cubes(m + 1, n);
    }
    if m > n {
      Cubes(n + 1, m);
    }
  }

  lemma Cubes(a: nat, b: nat)
    requires a <= b
    ensures a * a * a <= b * b * b
  {
    Times(a, b, a);
    Times(a, b, b);
    Times(a * a, b * b, a);
    Times(a, b, b * b);
  }

  /** Section 5.3.3: the initial hash value, from the square roots of the first eight primes. */
  lemma InitialIsRoots()
    ensures SquareRootBits(NthPrime(0), 1, INITIAL.a) && SquareRootBits(NthPrime(1), 1, INITIAL.b)
    ensures SquareRootBits(NthPrime(2), 2, INITIAL.c) && SquareRootBits(NthPrime(3), 2, INITIAL.d)
    ensures SquareRootBits(NthPrime(4), 3, INITIAL.e) && SquareRootBits(NthPrime(5), 3, INITIAL.f)
    ensures SquareRootBits(NthPrime(6), 4, INITIAL.g) && SquareRootBits(NthPrime(7), 4, INITIAL.h)
  {}
}
