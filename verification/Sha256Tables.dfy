/** Where the constants of SHA-256 come from (sections 4.2.2 and 5.3.3 of FIPS 180-4): the first 32 bits of
    the fractional parts of the cube roots of the first 64 primes, and of the square roots of the first
    eight. */
module Sha256Tables {
  import opened Sha256Spec
  import opened Arith

  predicate IsPrime(n: nat) {
    n >= 2 && forall d | 2 <= d < n :: n % d != 0
  }

  const P0: seq<nat> := [2, 3, 5, 7, 11, 13, 17, 19]
  const P1: seq<nat> := [23, 29, 31, 37, 41, 43, 47, 53]
  const P2: seq<nat> := [59, 61, 67, 71, 73, 79, 83, 89]
  const P3: seq<nat> := [97, 101, 103, 107, 109, 113, 127, 131]
  const P4: seq<nat> := [137, 139, 149, 151, 157, 163, 167, 173]
  const P5: seq<nat> := [179, 181, 191, 193, 197, 199, 211, 223]
  const P6: seq<nat> := [227, 229, 233, 239, 241, 251, 257, 263]
  const P7: seq<nat> := [269, 271, 277, 281, 283, 293, 307, 311]

  /** The first 64 primes. */
  const PRIMES: seq<nat> := P0 + P1 + P2 + P3 + P4 + P5 + P6 + P7

  function Cube(x: nat): nat { x * x * x }

  /** k / 2^32 is the fractional part of the cube root of p, cut off after 32 binary digits. */
  ghost predicate CubeRootFraction(k: nat, p: nat) {
    exists m: nat :: CubeRoot(m, k, p)
  }

  predicate CubeRoot(m: nat, k: nat, p: nat) {
    k < 0x1_0000_0000 &&
    Cube(m * 0x1_0000_0000 + k) <= p * 0x1_0000_0000_0000_0000_0000_0000 < Cube(m * 0x1_0000_0000 + k + 1)
  }

  ghost predicate SquareRootFraction(k: nat, p: nat) {
    exists m: nat :: SquareRoot(m, k, p)
  }

  predicate SquareRoot(m: nat, k: nat, p: nat) {
    && k < 0x1_0000_0000
    && var x := m * 0x1_0000_0000 + k;
       x * x <= p * 0x1_0000_0000_0000_0000 < (x + 1) * (x + 1)
  }

  lemma Fraction(m: nat, k: nat, p: nat, w: Word)
    requires CubeRoot(m, k, p) && w as int == k
    ensures CubeRootFraction(w as int, p)
  {
  }

  lemma Row0(j: nat)
    requires j < 8
    ensures |K0| == |P0| == 8 && CubeRootFraction(K0[j] as int, P0[j])
  {
    hide CubeRootFraction;
    Fraction(1, 0x428a2f98, 2, K0[0]);
    Fraction(1, 0x71374491, 3, K0[1]);
    Fraction(1, 0xb5c0fbcf, 5, K0[2]);
    Fraction(1, 0xe9b5dba5, 7, K0[3]);
    Fraction(2, 0x3956c25b, 11, K0[4]);
    Fraction(2, 0x59f111f1, 13, K0[5]);
    Fraction(2, 0x923f82a4, 17, K0[6]);
    Fraction(2, 0xab1c5ed5, 19, K0[7]);
  }

  lemma Row1(j: nat)
    requires j < 8
    ensures |K1| == |P1| == 8 && CubeRootFraction(K1[j] as int, P1[j])
  {
    hide CubeRootFraction;
    Fraction(2, 0xd807aa98, 23, K1[0]);
    Fraction(3, 0x12835b01, 29, K1[1]);
    Fraction(3, 0x243185be, 31, K1[2]);
    Fraction(3, 0x550c7dc3, 37, K1[3]);
    Fraction(3, 0x72be5d74, 41, K1[4]);
    Fraction(3, 0x80deb1fe, 43, K1[5]);
    Fraction(3, 0x9bdc06a7, 47, K1[6]);
    Fraction(3, 0xc19bf174, 53, K1[7]);
  }

  lemma Row2(j: nat)
    requires j < 8
    ensures |K2| == |P2| == 8 && CubeRootFraction(K2[j] as int, P2[j])
  {
    hide CubeRootFraction;
    Fraction(3, 0xe49b69c1, 59, K2[0]);
    Fraction(3, 0xefbe4786, 61, K2[1]);
    Fraction(4, 0x0fc19dc6, 67, K2[2]);
    Fraction(4, 0x240ca1cc, 71, K2[3]);
    Fraction(4, 0x2de92c6f, 73, K2[4]);
    Fraction(4, 0x4a7484aa, 79, K2[5]);
    Fraction(4, 0x5cb0a9dc, 83, K2[6]);
    Fraction(4, 0x76f988da, 89, K2[7]);
  }

  lemma Row3(j: nat)
    requires j < 8
    ensures |K3| == |P3| == 8 && CubeRootFraction(K3[j] as int, P3[j])
  {
    hide CubeRootFraction;
    Fraction(4, 0x983e5152, 97, K3[0]);
    Fraction(4, 0xa831c66d, 101, K3[1]);
    Fraction(4, 0xb00327c8, 103, K3[2]);
    Fraction(4, 0xbf597fc7, 107, K3[3]);
    Fraction(4, 0xc6e00bf3, 109, K3[4]);
    Fraction(4, 0xd5a79147, 113, K3[5]);
    Fraction(5, 0x06ca6351, 127, K3[6]);
    Fraction(5, 0x14292967, 131, K3[7]);
  }

  lemma Row4(j: nat)
    requires j < 8
    ensures |K4| == |P4| == 8 && CubeRootFraction(K4[j] as int, P4[j])
  {
    hide CubeRootFraction;
    Fraction(5, 0x27b70a85, 137, K4[0]);
    Fraction(5, 0x2e1b2138, 139, K4[1]);
    Fraction(5, 0x4d2c6dfc, 149, K4[2]);
    Fraction(5, 0x53380d13, 151, K4[3]);
    Fraction(5, 0x650a7354, 157, K4[4]);
    Fraction(5, 0x766a0abb, 163, K4[5]);
    Fraction(5, 0x81c2c92e, 167, K4[6]);
    Fraction(5, 0x92722c85, 173, K4[7]);
  }

  lemma Row5(j: nat)
    requires j < 8
    ensures |K5| == |P5| == 8 && CubeRootFraction(K5[j] as int, P5[j])
  {
    hide CubeRootFraction;
    Fraction(5, 0xa2bfe8a1, 179, K5[0]);
    Fraction(5, 0xa81a664b, 181, K5[1]);
    Fraction(5, 0xc24b8b70, 191, K5[2]);
    Fraction(5, 0xc76c51a3, 193, K5[3]);
    Fraction(5, 0xd192e819, 197, K5[4]);
    Fraction(5, 0xd6990624, 199, K5[5]);
    Fraction(5, 0xf40e3585, 211, K5[6]);
    Fraction(6, 0x106aa070, 223, K5[7]);
  }

  lemma Row6(j: nat)
    requires j < 8
    ensures |K6| == |P6| == 8 && CubeRootFraction(K6[j] as int, P6[j])
  {
    hide CubeRootFraction;
    Fraction(6, 0x19a4c116, 227, K6[0]);
    Fraction(6, 0x1e376c08, 229, K6[1]);
    Fraction(6, 0x2748774c, 233, K6[2]);
    Fraction(6, 0x34b0bcb5, 239, K6[3]);
    Fraction(6, 0x391c0cb3, 241, K6[4]);
    Fraction(6, 0x4ed8aa4a, 251, K6[5]);
    Fraction(6, 0x5b9cca4f, 257, K6[6]);
    Fraction(6, 0x682e6ff3, 263, K6[7]);
  }

  lemma Row7(j: nat)
    requires j < 8
    ensures |K7| == |P7| == 8 && CubeRootFraction(K7[j] as int, P7[j])
  {
    hide CubeRootFraction;
    Fraction(6, 0x748f82ee, 269, K7[0]);
    Fraction(6, 0x78a5636f, 271, K7[1]);
    Fraction(6, 0x84c87814, 277, K7[2]);
    Fraction(6, 0x8cc70208, 281, K7[3]);
    Fraction(6, 0x90befffa, 283, K7[4]);
    Fraction(6, 0xa4506ceb, 293, K7[5]);
    Fraction(6, 0xbef9a3f7, 307, K7[6]);
    Fraction(6, 0xc67178f2, 311, K7[7]);
  }

  /** Each round constant is the fraction of the cube root of its prime. */
  lemma ConstantsAreCubeRoots(i: nat)
    requires i < 64
    ensures |K| == |PRIMES| == 64 && CubeRootFraction(K[i] as int, PRIMES[i])
  {
    hide CubeRootFraction;
    Rows(K0, K1, K2, K3, K4, K5, K6, K7, i);
    Rows(P0, P1, P2, P3, P4, P5, P6, P7, i);
    RowOf(i / 8, i % 8);
  }

  /** Entry i of eight rows of eight. */
  function Entry<T>(a: seq<T>, b: seq<T>, c: seq<T>, d: seq<T>, e: seq<T>, f: seq<T>, g: seq<T>, h: seq<T>, r: nat, j: nat): T
    requires |a| == |b| == |c| == |d| == |e| == |f| == |g| == |h| == 8 && r < 8 && j < 8
  {
    match r
    case 0 => a[j] case 1 => b[j] case 2 => c[j] case 3 => d[j]
    case 4 => e[j] case 5 => f[j] case 6 => g[j] case _ => h[j]
  }

  lemma Rows<T>(a: seq<T>, b: seq<T>, c: seq<T>, d: seq<T>, e: seq<T>, f: seq<T>, g: seq<T>, h: seq<T>, i: nat)
    requires |a| == |b| == |c| == |d| == |e| == |f| == |g| == |h| == 8 && i < 64
    ensures |a + b + c + d + e + f + g + h| == 64
    ensures (a + b + c + d + e + f + g + h)[i] == Entry(a, b, c, d, e, f, g, h, i / 8, i % 8)
  {
    assert i == 8 * (i / 8) + i % 8;
  }

  lemma RowOf(r: nat, j: nat)
    requires r < 8 && j < 8
    ensures CubeRootFraction(Entry(K0, K1, K2, K3, K4, K5, K6, K7, r, j) as int, Entry(P0, P1, P2, P3, P4, P5, P6, P7, r, j))
  {
    hide CubeRootFraction;
    match r
    case 0 => Row0(j);
    case 1 => Row1(j);
    case 2 => Row2(j);
    case 3 => Row3(j);
    case 4 => Row4(j);
    case 5 => Row5(j);
    case 6 => Row6(j);
    case _ => Row7(j);
  }

  /** Each initial hash word is the fraction of the square root of its prime. */
  lemma InitialWordsAreSquareRoots()
    ensures SquareRootFraction(IV.a as int, 2) && SquareRootFraction(IV.b as int, 3)
    ensures SquareRootFraction(IV.c as int, 5) && SquareRootFraction(IV.d as int, 7)
    ensures SquareRootFraction(IV.e as int, 11) && SquareRootFraction(IV.f as int, 13)
    ensures SquareRootFraction(IV.g as int, 17) && SquareRootFraction(IV.h as int, 19)
  {
    assert SquareRoot(1, 0x6a09e667, 2) && IV.a as int == 0x6a09e667;
    assert SquareRoot(1, 0xbb67ae85, 3) && IV.b as int == 0xbb67ae85;
    assert SquareRoot(2, 0x3c6ef372, 5) && IV.c as int == 0x3c6ef372;
    assert SquareRoot(2, 0xa54ff53a, 7) && IV.d as int == 0xa54ff53a;
    assert SquareRoot(3, 0x510e527f, 11) && IV.e as int == 0x510e527f;
    assert SquareRoot(3, 0x9b05688c, 13) && IV.f as int == 0x9b05688c;
    assert SquareRoot(4, 0x1f83d9ab, 17) && IV.g as int == 0x1f83d9ab;
    assert SquareRoot(4, 0x5be0cd19, 19) && IV.h as int == 0x5be0cd19;
  }

  // ---- The primes are the first 64 ----

  /** No small prime divides the number, unless it is the number. */
  predicate NoSmallDivisor(n: nat) {
    && n >= 2
    && (n % 2 != 0 || n == 2) && (n % 3 != 0 || n == 3) && (n % 5 != 0 || n == 5) && (n % 7 != 0 || n == 7)
    && (n % 11 != 0 || n == 11) && (n % 13 != 0 || n == 13) && (n % 17 != 0 || n == 17)
  }

  /** A multiple of a multiple. */
  lemma DividesThrough(n: nat, a: nat, b: nat, p: nat)
    requires p > 0 && a % p == 0 && n == a * b
    ensures n % p == 0
  {
    var c := a / p;
    assert a == c * p;
    assert (c * p) * b == (c * b) * p;
    ModUnique(n, c * b, 0, p);
  }

  lemma SmallFactor(n: nat, a: nat, b: nat)
    requires n == a * b && 2 <= a <= 18 && b >= 2
    ensures !NoSmallDivisor(n)
  {
    var p := if a % 2 == 0 then 2 else if a % 3 == 0 then 3 else if a % 5 == 0 then 5 else if a % 7 == 0 then 7
             else if a == 11 then 11 else if a == 13 then 13 else 17;
    assert a % p == 0 && p <= a;
    DividesThrough(n, a, b, p);
    MulLe(2, b, a);
    assert n != p;
  }

  lemma SmallDivisorIsEnough(n: nat)
    requires n < 361
    ensures IsPrime(n) <==> NoSmallDivisor(n)
  {
    if NoSmallDivisor(n) {
      forall d | 2 <= d < n ensures n % d != 0 {
        if n % d == 0 {
          var e := n / d;
          assert n == d * e;
          FactorsAreSmall(n, d, e);
          if d <= 18 {
            SmallFactor(n, d, e);
          } else {
            SmallFactor(n, e, d);
          }
        }
      }
    }
  }

  lemma FactorsAreSmall(n: nat, d: nat, e: nat)
    requires n == d * e && n < 361 && 2 <= d < n
    ensures e >= 2 && (d <= 18 || e <= 18)
  {
    if d >= 19 && e >= 19 {
      MulLe(19, d, e);
    }
  }

  function Listed(n: nat): seq<nat> {
    if n < 2 then [] else Listed(n - 1) + (if NoSmallDivisor(n) then [n] else [])
  }

  lemma {:induction false} ListedIs(n: nat, m: nat)
    ensures m in Listed(n) <==> m <= n && NoSmallDivisor(m)
  {
    if n >= 2 {
      ListedIs(n - 1, m);
    }
  }

  /** From one prime to the next. */
  lemma {:induction false} Next(a: nat, b: nat)
    requires 2 <= a < b && NoSmallDivisor(b) && NoneBetween(a, b)
    ensures Listed(b) == Listed(a) + [b]
    decreases b - a
  {
    hide NoSmallDivisor;
    if a + 1 < b {
      Next(a + 1, b);
      assert Listed(a + 1) == Listed(a);
    }
  }

  predicate NoneBetween(a: nat, b: nat)
    decreases b - a
  {
    a + 1 >= b || (!NoSmallDivisor(a + 1) && NoneBetween(a + 1, b))
  }

  lemma ListedTwo()
    ensures Listed(2) == [2]
  {
    assert Listed(1) == [];
  }

  lemma Listed0()
    ensures Listed(19) == P0
  {
    ListedTwo();
    hide Listed;
    Next(2, 3); Next(3, 5); Next(5, 7); Next(7, 11);
    Next(11, 13); Next(13, 17); Next(17, 19);
  }

  lemma Listed1()
    ensures Listed(53) == Listed(19) + P1
  {
    hide Listed;
    Next(19, 23); Next(23, 29); Next(29, 31); Next(31, 37);
    Next(37, 41); Next(41, 43); Next(43, 47); Next(47, 53);
  }

  lemma Listed2()
    ensures Listed(89) == Listed(53) + P2
  {
    hide Listed;
    Next(53, 59); Next(59, 61); Next(61, 67); Next(67, 71);
    Next(71, 73); Next(73, 79); Next(79, 83); Next(83, 89);
  }

  lemma Listed3()
    ensures Listed(131) == Listed(89) + P3
  {
    hide Listed;
    Next(89, 97); Next(97, 101); Next(101, 103); Next(103, 107);
    Next(107, 109); Next(109, 113); Next(113, 127); Next(127, 131);
  }

  lemma Listed4()
    ensures Listed(173) == Listed(131) + P4
  {
    hide Listed;
    Next(131, 137); Next(137, 139); Next(139, 149); Next(149, 151);
    Next(151, 157); Next(157, 163); Next(163, 167); Next(167, 173);
  }

  lemma Listed5()
    ensures Listed(223) == Listed(173) + P5
  {
    hide Listed;
    Next(173, 179); Next(179, 181); Next(181, 191); Next(191, 193);
    Next(193, 197); Next(197, 199); Next(199, 211); Next(211, 223);
  }

  lemma Listed6()
    ensures Listed(263) == Listed(223) + P6
  {
    hide Listed;
    Next(223, 227); Next(227, 229); Next(229, 233); Next(233, 239);
    Next(239, 241); Next(241, 251); Next(251, 257); Next(257, 263);
  }

  lemma Listed7()
    ensures Listed(311) == Listed(263) + P7
  {
    hide Listed;
    Next(263, 269); Next(269, 271); Next(271, 277); Next(277, 281);
    Next(281, 283); Next(283, 293); Next(293, 307); Next(307, 311);
  }

  /** The table holds the primes up to 311 in ascending order, and so the first 64. */
  lemma TableOfPrimes(n: nat)
    ensures n in PRIMES <==> IsPrime(n) && n <= 311
    ensures forall i, j | 0 <= i < j < |PRIMES| :: PRIMES[i] < PRIMES[j]
  {
    hide NoSmallDivisor, IsPrime, Listed;
    TableIsListed();
    ListedIs(311, n);
    ListedAscends(311);
    if n <= 311 {
      SmallDivisorIsEnough(n);
    }
  }

  lemma TableIsListed()
    ensures Listed(311) == PRIMES
  {
    hide Listed;
    Listed0();
    Listed1();
    Listed2();
    Listed3();
    Listed4();
    Listed5();
    Listed6();
    Listed7();
  }

  lemma {:induction false} ListedAscends(n: nat)
    ensures forall i, j | 0 <= i < j < |Listed(n)| :: Listed(n)[i] < Listed(n)[j]
    ensures forall m | m in Listed(n) :: m <= n
  {
    hide NoSmallDivisor;
    if n >= 2 {
      ListedAscends(n - 1);
      var s, r := Listed(n), Listed(n - 1);
      forall i, j | 0 <= i < j < |s| ensures s[i] < s[j] {
        assert s[i] == r[i] && r[i] in r;
        assert j < |r| ==> s[j] == r[j];
      }
    }
  }
}
