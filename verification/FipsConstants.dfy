/** Where the constants of SHA-256 come from: sections 4.2.2 and 5.3.3 of FIPS 180-4. */
module Fips180Constants {

  import opened Fips180

  // --- Primes ---

  ghost predicate IsPrime(n: nat) { n >= 2 && forall d :: 2 <= d < n ==> n % d != 0 }

  /** How many primes are below n. */
  ghost function PrimesBelow(n: nat): nat
  {
    if n == 0 then 0 else PrimesBelow(n - 1) + if IsPrime(n - 1) then 1 else 0
  }

  /** Counted from 0. */
  ghost predicate IsNthPrime(p: nat, i: nat) { IsPrime(p) && PrimesBelow(p) == i }

  predicate Divides(c: nat, n: nat)
    requires c > 0
  {
    n > c && n % c == 0
  }

  /** Below 324 = 18 * 18, a number that is not prime has one of these divisors. */
  predicate HasSmallDivisor(n: nat)
  {
    || Divides(2, n) || Divides(3, n) || Divides(5, n) || Divides(7, n) || Divides(11, n) || Divides(13, n) || Divides(17, n)
  }

  lemma EvenFactor(n: nat, d: nat, half: nat)
    requires n == d * (2 * half) && d >= 2 && half >= 1
    ensures Divides(2, n)
  {
    assert d * (2 * half) == 2 * (d * half);
    assert d * half >= 2;
    Times2(d * half);
  }

  lemma Times2(x: nat)
    requires x >= 2
    ensures Divides(2, 2 * x)
  {
  }

  lemma Times3(x: nat)
    requires x >= 2
    ensures Divides(3, 3 * x)
  {
  }

  lemma Times5(x: nat)
    requires x >= 2
    ensures Divides(5, 5 * x)
  {
  }

  lemma Times7(x: nat)
    requires x >= 2
    ensures Divides(7, 7 * x)
  {
  }

  lemma Times11(x: nat)
    requires x >= 2
    ensures Divides(11, 11 * x)
  {
  }

  lemma Times13(x: nat)
    requires x >= 2
    ensures Divides(13, 13 * x)
  {
  }

  lemma Times17(x: nat)
    requires x >= 2
    ensures Divides(17, 17 * x)
  {
  }

  lemma OddFactor(n: nat, d: nat, e: nat)
    requires d >= 2 && (e == 3 || e == 5 || e == 7 || e == 9 || e == 11 || e == 13 || e == 15 || e == 17)
    requires e == 3 ==> n == 3 * d
    requires e == 5 ==> n == 5 * d
    requires e == 7 ==> n == 7 * d
    requires e == 9 ==> n == 9 * d
    requires e == 11 ==> n == 11 * d
    requires e == 13 ==> n == 13 * d
    requires e == 15 ==> n == 15 * d
    requires e == 17 ==> n == 17 * d
    ensures HasSmallDivisor(n)
  {
    hide Divides;
    if e == 3 {
      Times3(d);
    } else if e == 9 {
      Times3(3 * d);
    } else if e == 15 {
      Times3(5 * d);
    } else if e == 5 {
      Times5(d);
    } else if e == 7 {
      Times7(d);
    } else if e == 11 {
      Times11(d);
    } else if e == 13 {
      Times13(d);
    } else {
      Times17(d);
    }
  }

  lemma FactorBelow18(n: nat, d: nat, e: nat)
    requires n == d * e && d >= 2 && 2 <= e < 18
    ensures HasSmallDivisor(n)
  {
    hide Divides;
    if e % 2 == 0 {
      assert e == 2 * (e / 2);
      EvenFactor(n, d, e / 2);
    } else {
      hide HasSmallDivisor;
      OddFactor(n, d, e);
    }
  }

  lemma BigFactors(d: nat, e: nat)
    requires d >= 18 && e >= 18
    ensures d * e >= 324
  {
    assert d * e >= 18 * e;
  }

  lemma ProperCofactor(n: nat, d: nat, e: nat)
    requires n == d * e && 2 <= d < n
    ensures e >= 2
  {
    assert d * 0 == 0 && d * 1 == d;
  }

  lemma HasFactors(n: nat, d: nat) returns (e: nat)
    requires 2 <= d < n && n % d == 0
    ensures n == d * e && e >= 2
  {
    e := n / d;
    assert n == d * e;
    ProperCofactor(n, d, e);
  }

  lemma PrimeIff(n: nat)
    requires 2 <= n < 324
    ensures IsPrime(n) <==> !HasSmallDivisor(n)
  {
    if !IsPrime(n) {
      hide HasSmallDivisor;
      var d :| 2 <= d < n && n % d == 0;
      var e := HasFactors(n, d);
      if e < 18 {
        FactorBelow18(n, d, e);
      } else if d < 18 {
        FactorBelow18(n, e, d);
      } else {
        BigFactors(d, e);
      }
    }
  }

  /** The same count, by trial division. */
  function Count(n: nat): nat
  {
    if n <= 2 then 0 else Count(n - 1) + if HasSmallDivisor(n - 1) then 0 else 1
  }

  lemma {:induction false} CountIsPrimesBelow(n: nat)
    requires n < 324
    ensures PrimesBelow(n) == Count(n)
  {
    hide HasSmallDivisor, IsPrime;
    if n > 2 {
      CountIsPrimesBelow(n - 1);
      PrimeIff(n - 1);
    } else {
      NoPrimesBelowTwo();
    }
  }

  lemma NoPrimesBelowTwo()
    ensures PrimesBelow(0) == PrimesBelow(1) == PrimesBelow(2) == 0
  {
  }

  /** p is the i-th prime, found by trial division. */
  predicate Found(p: nat, i: nat) { 2 <= p < 324 && !HasSmallDivisor(p) && Count(p) == i }

  lemma {:induction false} CountSkips(a: nat, b: nat)
    requires 2 <= a <= b && forall n :: a <= n < b ==> HasSmallDivisor(n)
    ensures Count(b) == Count(a)
    decreases b - a
  {
    hide HasSmallDivisor;
    if a < b { CountSkips(a + 1, b); }
  }

  /** No prime in between, for a gap of at most 14: the odd numbers have small divisors. */
  predicate Gap(p: nat, q: nat)
  {
    && q <= p + 14 && p % 2 == 1
    && (p + 2 < q ==> HasSmallDivisor(p + 2)) && (p + 4 < q ==> HasSmallDivisor(p + 4))
    && (p + 6 < q ==> HasSmallDivisor(p + 6)) && (p + 8 < q ==> HasSmallDivisor(p + 8))
    && (p + 10 < q ==> HasSmallDivisor(p + 10)) && (p + 12 < q ==> HasSmallDivisor(p + 12))
  }

  lemma NextPrime(p: nat, i: nat, q: nat)
    requires Found(p, i) && 2 < p < q < 324 && Gap(p, q) && !HasSmallDivisor(q)
    ensures Found(q, i + 1)
  {
    hide HasSmallDivisor;
    forall n | p < n < q
      ensures HasSmallDivisor(n)
    {
      if n % 2 == 0 {
        EvenIsComposite(n);
      } else {
        assert n == p + 2 || n == p + 4 || n == p + 6 || n == p + 8 || n == p + 10 || n == p + 12;
      }
    }
    CountSkips(p + 1, q);
  }

  lemma EvenIsComposite(n: nat)
    requires n > 2 && n % 2 == 0
    ensures HasSmallDivisor(n)
  {
  }

  lemma FoundIsNth(p: nat, i: nat)
    requires Found(p, i)
    ensures IsNthPrime(p, i)
  {
    hide HasSmallDivisor, IsPrime;
    PrimeIff(p);
    CountIsPrimesBelow(p);
  }

  lemma LowWord(whole: nat, w: word)
    ensures (whole * MODULUS + w) % MODULUS == w
  {
  }

  // --- Section 4.2.2: the cube roots of the first 64 primes ---

  /** m is the integer part of the cube root of p, times 2^32. */
  predicate IsCubeRoot(p: nat, m: nat)
  {
    m * m * m <= p * 0x1_0000_0000_0000_0000_0000_0000 < (m + 1) * (m + 1) * (m + 1)
  }

  /** K_i is the first 32 bits of the fractional part of the cube root of the i-th prime. */
  ghost predicate IsRoundConstant(i: nat, w: word)
  {
    exists p: nat, m: nat :: IsNthPrime(p, i) && IsCubeRoot(p, m) && m % MODULUS == w
  }

  lemma CubeRoot(p: nat, i: nat, whole: nat, w: word)
    requires Found(p, i) && IsCubeRoot(p, whole * MODULUS + w)
    ensures IsRoundConstant(i, w)
  {
    hide IsCubeRoot, Found, IsNthPrime;
    FoundIsNth(p, i);
    LowWord(whole, w);
  }

  lemma Constants0()
    ensures IsRoundConstant(0, K0[0]) && IsRoundConstant(1, K0[1])
    ensures IsRoundConstant(2, K0[2]) && IsRoundConstant(3, K0[3])
    ensures Found(7, 3)
  {
    hide Found, IsRoundConstant;
    FirstPrimes();
    NextPrime(3, 1, 5);
    NextPrime(5, 2, 7);
    CubeRoot(2, 0, 1, 0x428a2f98);
    CubeRoot(3, 1, 1, 0x71374491);
    CubeRoot(5, 2, 1, 0xb5c0fbcf);
    CubeRoot(7, 3, 1, 0xe9b5dba5);
  }

  lemma Constants4()
    requires Found(7, 3)
    ensures IsRoundConstant(4, K0[4]) && IsRoundConstant(5, K0[5])
    ensures IsRoundConstant(6, K0[6]) && IsRoundConstant(7, K0[7])
    ensures Found(19, 7)
  {
    hide Found, IsRoundConstant;
    NextPrime(7, 3, 11);
    NextPrime(11, 4, 13);
    NextPrime(13, 5, 17);
    NextPrime(17, 6, 19);
    CubeRoot(11, 4, 2, 0x3956c25b);
    CubeRoot(13, 5, 2, 0x59f111f1);
    CubeRoot(17, 6, 2, 0x923f82a4);
    CubeRoot(19, 7, 2, 0xab1c5ed5);
  }

  lemma Constants8()
    requires Found(19, 7)
    ensures IsRoundConstant(8, K1[0]) && IsRoundConstant(9, K1[1])
    ensures IsRoundConstant(10, K1[2]) && IsRoundConstant(11, K1[3])
    ensures Found(37, 11)
  {
    hide Found, IsRoundConstant;
    NextPrime(19, 7, 23);
    NextPrime(23, 8, 29);
    NextPrime(29, 9, 31);
    NextPrime(31, 10, 37);
    CubeRoot(23, 8, 2, 0xd807aa98);
    CubeRoot(29, 9, 3, 0x12835b01);
    CubeRoot(31, 10, 3, 0x243185be);
    CubeRoot(37, 11, 3, 0x550c7dc3);
  }

  lemma Constants12()
    requires Found(37, 11)
    ensures IsRoundConstant(12, K1[4]) && IsRoundConstant(13, K1[5])
    ensures IsRoundConstant(14, K1[6]) && IsRoundConstant(15, K1[7])
    ensures Found(53, 15)
  {
    hide Found, IsRoundConstant;
    NextPrime(37, 11, 41);
    NextPrime(41, 12, 43);
    NextPrime(43, 13, 47);
    NextPrime(47, 14, 53);
    CubeRoot(41, 12, 3, 0x72be5d74);
    CubeRoot(43, 13, 3, 0x80deb1fe);
    CubeRoot(47, 14, 3, 0x9bdc06a7);
    CubeRoot(53, 15, 3, 0xc19bf174);
  }

  lemma Constants16()
    requires Found(53, 15)
    ensures IsRoundConstant(16, K2[0]) && IsRoundConstant(17, K2[1])
    ensures IsRoundConstant(18, K2[2]) && IsRoundConstant(19, K2[3])
    ensures Found(71, 19)
  {
    hide Found, IsRoundConstant;
    NextPrime(53, 15, 59);
    NextPrime(59, 16, 61);
    NextPrime(61, 17, 67);
    NextPrime(67, 18, 71);
    CubeRoot(59, 16, 3, 0xe49b69c1);
    CubeRoot(61, 17, 3, 0xefbe4786);
    CubeRoot(67, 18, 4, 0x0fc19dc6);
    CubeRoot(71, 19, 4, 0x240ca1cc);
  }

  lemma Constants20()
    requires Found(71, 19)
    ensures IsRoundConstant(20, K2[4]) && IsRoundConstant(21, K2[5])
    ensures IsRoundConstant(22, K2[6]) && IsRoundConstant(23, K2[7])
    ensures Found(89, 23)
  {
    hide Found, IsRoundConstant;
    NextPrime(71, 19, 73);
    NextPrime(73, 20, 79);
    NextPrime(79, 21, 83);
    NextPrime(83, 22, 89);
    CubeRoot(73, 20, 4, 0x2de92c6f);
    CubeRoot(79, 21, 4, 0x4a7484aa);
    CubeRoot(83, 22, 4, 0x5cb0a9dc);
    CubeRoot(89, 23, 4, 0x76f988da);
  }

  lemma Constants24()
    requires Found(89, 23)
    ensures IsRoundConstant(24, K3[0]) && IsRoundConstant(25, K3[1])
    ensures IsRoundConstant(26, K3[2]) && IsRoundConstant(27, K3[3])
    ensures Found(107, 27)
  {
    hide Found, IsRoundConstant;
    NextPrime(89, 23, 97);
    NextPrime(97, 24, 101);
    NextPrime(101, 25, 103);
    NextPrime(103, 26, 107);
    CubeRoot(97, 24, 4, 0x983e5152);
    CubeRoot(101, 25, 4, 0xa831c66d);
    CubeRoot(103, 26, 4, 0xb00327c8);
    CubeRoot(107, 27, 4, 0xbf597fc7);
  }

  lemma Constants28()
    requires Found(107, 27)
    ensures IsRoundConstant(28, K3[4]) && IsRoundConstant(29, K3[5])
    ensures IsRoundConstant(30, K3[6]) && IsRoundConstant(31, K3[7])
    ensures Found(131, 31)
  {
    hide Found, IsRoundConstant;
    NextPrime(107, 27, 109);
    NextPrime(109, 28, 113);
    NextPrime(113, 29, 127);
    NextPrime(127, 30, 131);
    CubeRoot(109, 28, 4, 0xc6e00bf3);
    CubeRoot(113, 29, 4, 0xd5a79147);
    CubeRoot(127, 30, 5, 0x06ca6351);
    CubeRoot(131, 31, 5, 0x14292967);
  }

  lemma Constants32()
    requires Found(131, 31)
    ensures IsRoundConstant(32, K4[0]) && IsRoundConstant(33, K4[1])
    ensures IsRoundConstant(34, K4[2]) && IsRoundConstant(35, K4[3])
    ensures Found(151, 35)
  {
    hide Found, IsRoundConstant;
    NextPrime(131, 31, 137);
    NextPrime(137, 32, 139);
    NextPrime(139, 33, 149);
    NextPrime(149, 34, 151);
    CubeRoot(137, 32, 5, 0x27b70a85);
    CubeRoot(139, 33, 5, 0x2e1b2138);
    CubeRoot(149, 34, 5, 0x4d2c6dfc);
    CubeRoot(151, 35, 5, 0x53380d13);
  }

  lemma Constants36()
    requires Found(151, 35)
    ensures IsRoundConstant(36, K4[4]) && IsRoundConstant(37, K4[5])
    ensures IsRoundConstant(38, K4[6]) && IsRoundConstant(39, K4[7])
    ensures Found(173, 39)
  {
    hide Found, IsRoundConstant;
    NextPrime(151, 35, 157);
    NextPrime(157, 36, 163);
    NextPrime(163, 37, 167);
    NextPrime(167, 38, 173);
    CubeRoot(157, 36, 5, 0x650a7354);
    CubeRoot(163, 37, 5, 0x766a0abb);
    CubeRoot(167, 38, 5, 0x81c2c92e);
    CubeRoot(173, 39, 5, 0x92722c85);
  }

  lemma Constants40()
    requires Found(173, 39)
    ensures IsRoundConstant(40, K5[0]) && IsRoundConstant(41, K5[1])
    ensures IsRoundConstant(42, K5[2]) && IsRoundConstant(43, K5[3])
    ensures Found(193, 43)
  {
    hide Found, IsRoundConstant;
    NextPrime(173, 39, 179);
    NextPrime(179, 40, 181);
    NextPrime(181, 41, 191);
    NextPrime(191, 42, 193);
    CubeRoot(179, 40, 5, 0xa2bfe8a1);
    CubeRoot(181, 41, 5, 0xa81a664b);
    CubeRoot(191, 42, 5, 0xc24b8b70);
    CubeRoot(193, 43, 5, 0xc76c51a3);
  }

  lemma Constants44()
    requires Found(193, 43)
    ensures IsRoundConstant(44, K5[4]) && IsRoundConstant(45, K5[5])
    ensures IsRoundConstant(46, K5[6]) && IsRoundConstant(47, K5[7])
    ensures Found(223, 47)
  {
    hide Found, IsRoundConstant;
    NextPrime(193, 43, 197);
    NextPrime(197, 44, 199);
    NextPrime(199, 45, 211);
    NextPrime(211, 46, 223);
    CubeRoot(197, 44, 5, 0xd192e819);
    CubeRoot(199, 45, 5, 0xd6990624);
    CubeRoot(211, 46, 5, 0xf40e3585);
    CubeRoot(223, 47, 6, 0x106aa070);
  }

  lemma Constants48()
    requires Found(223, 47)
    ensures IsRoundConstant(48, K6[0]) && IsRoundConstant(49, K6[1])
    ensures IsRoundConstant(50, K6[2]) && IsRoundConstant(51, K6[3])
    ensures Found(239, 51)
  {
    hide Found, IsRoundConstant;
    NextPrime(223, 47, 227);
    NextPrime(227, 48, 229);
    NextPrime(229, 49, 233);
    NextPrime(233, 50, 239);
    CubeRoot(227, 48, 6, 0x19a4c116);
    CubeRoot(229, 49, 6, 0x1e376c08);
    CubeRoot(233, 50, 6, 0x2748774c);
    CubeRoot(239, 51, 6, 0x34b0bcb5);
  }

  lemma Constants52()
    requires Found(239, 51)
    ensures IsRoundConstant(52, K6[4]) && IsRoundConstant(53, K6[5])
    ensures IsRoundConstant(54, K6[6]) && IsRoundConstant(55, K6[7])
    ensures Found(263, 55)
  {
    hide Found, IsRoundConstant;
    NextPrime(239, 51, 241);
    NextPrime(241, 52, 251);
    NextPrime(251, 53, 257);
    NextPrime(257, 54, 263);
    CubeRoot(241, 52, 6, 0x391c0cb3);
    CubeRoot(251, 53, 6, 0x4ed8aa4a);
    CubeRoot(257, 54, 6, 0x5b9cca4f);
    CubeRoot(263, 55, 6, 0x682e6ff3);
  }

  lemma Constants56()
    requires Found(263, 55)
    ensures IsRoundConstant(56, K7[0]) && IsRoundConstant(57, K7[1])
    ensures IsRoundConstant(58, K7[2]) && IsRoundConstant(59, K7[3])
    ensures Found(281, 59)
  {
    hide Found, IsRoundConstant;
    NextPrime(263, 55, 269);
    NextPrime(269, 56, 271);
    NextPrime(271, 57, 277);
    NextPrime(277, 58, 281);
    CubeRoot(269, 56, 6, 0x748f82ee);
    CubeRoot(271, 57, 6, 0x78a5636f);
    CubeRoot(277, 58, 6, 0x84c87814);
    CubeRoot(281, 59, 6, 0x8cc70208);
  }

  lemma Constants60()
    requires Found(281, 59)
    ensures IsRoundConstant(60, K7[4]) && IsRoundConstant(61, K7[5])
    ensures IsRoundConstant(62, K7[6]) && IsRoundConstant(63, K7[7])
    ensures Found(311, 63)
  {
    hide Found, IsRoundConstant;
    NextPrime(281, 59, 283);
    NextPrime(283, 60, 293);
    NextPrime(293, 61, 307);
    NextPrime(307, 62, 311);
    CubeRoot(283, 60, 6, 0x90befffa);
    CubeRoot(293, 61, 6, 0xa4506ceb);
    CubeRoot(307, 62, 6, 0xbef9a3f7);
    CubeRoot(311, 63, 6, 0xc67178f2);
  }

  lemma FirstPrimes()
    ensures Found(2, 0) && Found(3, 1)
  {
  }

  function KWord(i: nat): word
    requires i < 64
  {
    if i < 8 then K0[i] else if i < 16 then K1[i - 8] else if i < 24 then K2[i - 16] else if i < 32 then K3[i - 24]
    else if i < 40 then K4[i - 32] else if i < 48 then K5[i - 40] else if i < 56 then K6[i - 48] else K7[i - 56]
  }

  lemma AllConstants(i: nat)
    requires i < 64
    ensures IsRoundConstant(i, KWord(i))
  {
    hide IsRoundConstant, Found;
    Constants0();
    Constants4();
    Constants8();
    Constants12();
    Constants16();
    Constants20();
    Constants24();
    Constants28();
    Constants32();
    Constants36();
    Constants40();
    Constants44();
    Constants48();
    Constants52();
    Constants56();
    Constants60();
  }

  lemma RowsOfK(i: nat)
    requires i < 64
    ensures K[i] == KWord(i)
  {
  }

  /** The round constants are what section 4.2.2 says they are. */
  lemma RoundConstants(i: nat)
    requires i < 64
    ensures IsRoundConstant(i, K[i])
  {
    hide IsRoundConstant, KWord;
    AllConstants(i);
    RowsOfK(i);
  }

  // --- Section 5.3.3: the square roots of the first eight primes ---

  predicate IsSquareRoot(p: nat, m: nat) { m * m <= p * 0x1_0000_0000_0000_0000 < (m + 1) * (m + 1) }

  ghost predicate IsInitialWord(i: nat, w: word)
  {
    exists p: nat, m: nat :: IsNthPrime(p, i) && IsSquareRoot(p, m) && m % MODULUS == w
  }

  lemma SquareRoot(p: nat, i: nat, whole: nat, w: word)
    requires Found(p, i) && IsSquareRoot(p, whole * MODULUS + w)
    ensures IsInitialWord(i, w)
  {
    hide IsSquareRoot, Found, IsNthPrime;
    FoundIsNth(p, i);
    LowWord(whole, w);
  }

  /** The initial hash value is what section 5.3.3 says it is. */
  lemma InitialHash()
    ensures IsInitialWord(0, H0.a) && IsInitialWord(1, H0.b) && IsInitialWord(2, H0.c) && IsInitialWord(3, H0.d)
    ensures IsInitialWord(4, H0.e) && IsInitialWord(5, H0.f) && IsInitialWord(6, H0.g) && IsInitialWord(7, H0.h)
  {
    hide Found, IsInitialWord;
    FirstPrimes();
    NextPrime(3, 1, 5);
    NextPrime(5, 2, 7);
    NextPrime(7, 3, 11);
    NextPrime(11, 4, 13);
    NextPrime(13, 5, 17);
    NextPrime(17, 6, 19);
    SquareRoot(2, 0, 1, 0x6a09e667);
    SquareRoot(3, 1, 1, 0xbb67ae85);
    SquareRoot(5, 2, 2, 0x3c6ef372);
    SquareRoot(7, 3, 2, 0xa54ff53a);
    SquareRoot(11, 4, 3, 0x510e527f);
    SquareRoot(13, 5, 3, 0x9b05688c);
    SquareRoot(17, 6, 4, 0x1f83d9ab);
    SquareRoot(19, 7, 4, 0x5be0cd19);
  }
}
