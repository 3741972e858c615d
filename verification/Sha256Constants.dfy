/**
 * The constants of SHA-256 against their definition (sections 4.2.2 and 5.3.3 of FIPS 180-4):
 * the first bits of roots of the first primes.
 */
module Sha256Constants {
  import opened Basics
  import opened Sha256Spec

  // ---------------------------------------------------------------- the first 64 primes

  predicate IsPrime(n: nat) {
    n >= 2 && forall d :: 2 <= d < n ==> n % d != 0
  }

  /** Divisible by none of the primes up to 17, or one of them. */
  predicate Sieved(n: nat) {
    && (n % 2 != 0 || n == 2) && (n % 3 != 0 || n == 3) && (n % 5 != 0 || n == 5) && (n % 7 != 0 || n == 7)
    && (n % 11 != 0 || n == 11) && (n % 13 != 0 || n == 13) && (n % 17 != 0 || n == 17)
  }

  const P0: seq<nat> := [2, 3, 5, 7, 11, 13, 17, 19]
  const P1: seq<nat> := [23, 29, 31, 37, 41, 43, 47, 53]
  const P2: seq<nat> := [59, 61, 67, 71, 73, 79, 83, 89]
  const P3: seq<nat> := [97, 101, 103, 107, 109, 113, 127, 131]
  const P4: seq<nat> := [137, 139, 149, 151, 157, 163, 167, 173]
  const P5: seq<nat> := [179, 181, 191, 193, 197, 199, 211, 223]
  const P6: seq<nat> := [227, 229, 233, 239, 241, 251, 257, 263]
  const P7: seq<nat> := [269, 271, 277, 281, 283, 293, 307, 311]

  const PRIMES: seq<nat> := P0 + P1 + P2 + P3 + P4 + P5 + P6 + P7

  lemma DivisorDivides(n: nat, x: nat, q: nat)
    requires x > 0 && q > 0 && n % x == 0 && x % q == 0
    ensures n % q == 0
  {
    var y, z := n / x, x / q;
    assert n == q * (z * y) by { assert n == x * y && x == q * z; }
    QuotientIs(n, q, z * y);
  }

  /** Below 19^2 a composite number has a factor up to 17. */
  lemma SieveIsExact(n: nat)
    requires 2 <= n < 361
    ensures Sieved(n) <==> IsPrime(n)
  {
    hide Sieved;
    if IsPrime(n) {
      PrimeIsSieved(n);
    } else {
      var d :| 2 <= d < n && n % d == 0;
      CompositeIsNotSieved(n, d);
    }
  }

  lemma PrimeIsSieved(n: nat)
    requires IsPrime(n)
    ensures Sieved(n)
  {
    if 2 < n { assert n % 2 != 0; }
    if 3 < n { assert n % 3 != 0; }
    if 5 < n { assert n % 5 != 0; }
    if 7 < n { assert n % 7 != 0; }
    if 11 < n { assert n % 11 != 0; }
    if 13 < n { assert n % 13 != 0; }
    if 17 < n { assert n % 17 != 0; }
  }

  lemma CompositeIsNotSieved(n: nat, d: nat)
    requires 2 <= d < n < 361 && n % d == 0
    ensures !Sieved(n)
  {
    hide Sieved;
    var m := n / d;
    assert n == d * m;
    if d <= 18 {
      SmallFactor(n, d);
    } else {
      if m >= 19 { SquareIsLarge(d, m); }
      QuotientIs(n, m, d);
      SmallFactor(n, m);
    }
  }

  lemma SquareIsLarge(d: nat, m: nat)
    requires d >= 19 && m >= 19
    ensures d * m >= 361
  {
    MultiplyKeepsOrder(19, d, m);
  }

  lemma FallsThrough(n: nat, x: nat, q: nat)
    requires q in {2, 3, 5, 7, 11, 13, 17} && q <= x < n && n % q == 0
    ensures !Sieved(n)
  {
  }

  lemma SmallFactor(n: nat, x: nat)
    requires 2 <= x <= 18 && x < n && n % x == 0
    ensures !Sieved(n)
  {
    hide Sieved;
    if x % 2 == 0 {
      DivisorDivides(n, x, 2);
      FallsThrough(n, x, 2);
    } else if x % 3 == 0 {
      DivisorDivides(n, x, 3);
      FallsThrough(n, x, 3);
    } else if x % 5 == 0 {
      DivisorDivides(n, x, 5);
      FallsThrough(n, x, 5);
    } else {
      assert x == 7 || x == 11 || x == 13 || x == 17;
      FallsThrough(n, x, x);
    }
  }

  lemma Primes0(n: nat)
    requires 2 <= n <= 10
    ensures Sieved(n) <==> n in P0
  {
  }

  lemma Primes1(n: nat)
    requires 11 <= n <= 19
    ensures Sieved(n) <==> n in P0
  {
  }

  lemma Primes2(n: nat)
    requires 20 <= n <= 31
    ensures Sieved(n) <==> n in P1
  {
  }

  lemma Primes3(n: nat)
    requires 32 <= n <= 43
    ensures Sieved(n) <==> n in P1
  {
  }

  lemma Primes4(n: nat)
    requires 44 <= n <= 53
    ensures Sieved(n) <==> n in P1
  {
  }

  lemma Primes5(n: nat)
    requires 54 <= n <= 65
    ensures Sieved(n) <==> n in P2
  {
  }

  lemma Primes6(n: nat)
    requires 66 <= n <= 77
    ensures Sieved(n) <==> n in P2
  {
  }

  lemma Primes7(n: nat)
    requires 78 <= n <= 89
    ensures Sieved(n) <==> n in P2
  {
  }

  lemma Primes8(n: nat)
    requires 90 <= n <= 100
    ensures Sieved(n) <==> n in P3
  {
  }

  lemma Primes9(n: nat)
    requires 101 <= n <= 111
    ensures Sieved(n) <==> n in P3
  {
  }

  lemma Primes10(n: nat)
    requires 112 <= n <= 122
    ensures Sieved(n) <==> n in P3
  {
  }

  lemma Primes11(n: nat)
    requires 123 <= n <= 131
    ensures Sieved(n) <==> n in P3
  {
  }

  lemma Primes12(n: nat)
    requires 132 <= n <= 142
    ensures Sieved(n) <==> n in P4
  {
  }

  lemma Primes13(n: nat)
    requires 143 <= n <= 153
    ensures Sieved(n) <==> n in P4
  {
  }

  lemma Primes14(n: nat)
    requires 154 <= n <= 164
    ensures Sieved(n) <==> n in P4
  {
  }

  lemma Primes15(n: nat)
    requires 165 <= n <= 173
    ensures Sieved(n) <==> n in P4
  {
  }

  lemma Primes16(n: nat)
    requires 174 <= n <= 186
    ensures Sieved(n) <==> n in P5
  {
  }

  lemma Primes17(n: nat)
    requires 187 <= n <= 199
    ensures Sieved(n) <==> n in P5
  {
  }

  lemma Primes18(n: nat)
    requires 200 <= n <= 212
    ensures Sieved(n) <==> n in P5
  {
  }

  lemma Primes19(n: nat)
    requires 213 <= n <= 223
    ensures Sieved(n) <==> n in P5
  {
  }

  lemma Primes20(n: nat)
    requires 224 <= n <= 233
    ensures Sieved(n) <==> n in P6
  {
  }

  lemma Primes21(n: nat)
    requires 234 <= n <= 243
    ensures Sieved(n) <==> n in P6
  {
  }

  lemma Primes22(n: nat)
    requires 244 <= n <= 253
    ensures Sieved(n) <==> n in P6
  {
  }

  lemma Primes23(n: nat)
    requires 254 <= n <= 263
    ensures Sieved(n) <==> n in P6
  {
  }

  lemma Primes24(n: nat)
    requires 264 <= n <= 275
    ensures Sieved(n) <==> n in P7
  {
  }

  lemma Primes25(n: nat)
    requires 276 <= n <= 287
    ensures Sieved(n) <==> n in P7
  {
  }

  lemma Primes26(n: nat)
    requires 288 <= n <= 299
    ensures Sieved(n) <==> n in P7
  {
  }

  lemma Primes27(n: nat)
    requires 300 <= n <= 311
    ensures Sieved(n) <==> n in P7
  {
  }

  lemma RowDecides(n: nat)
    requires 2 <= n <= 311
    ensures 2 <= n <= 19 ==> (Sieved(n) <==> n in P0)
    ensures 20 <= n <= 53 ==> (Sieved(n) <==> n in P1)
    ensures 54 <= n <= 89 ==> (Sieved(n) <==> n in P2)
    ensures 90 <= n <= 131 ==> (Sieved(n) <==> n in P3)
    ensures 132 <= n <= 173 ==> (Sieved(n) <==> n in P4)
    ensures 174 <= n <= 223 ==> (Sieved(n) <==> n in P5)
    ensures 224 <= n <= 263 ==> (Sieved(n) <==> n in P6)
    ensures 264 <= n <= 311 ==> (Sieved(n) <==> n in P7)
  {
    hide Sieved;
    if 2 <= n <= 10 { Primes0(n); }
    if 11 <= n <= 19 { Primes1(n); }
    if 20 <= n <= 31 { Primes2(n); }
    if 32 <= n <= 43 { Primes3(n); }
    if 44 <= n <= 53 { Primes4(n); }
    if 54 <= n <= 65 { Primes5(n); }
    if 66 <= n <= 77 { Primes6(n); }
    if 78 <= n <= 89 { Primes7(n); }
    if 90 <= n <= 100 { Primes8(n); }
    if 101 <= n <= 111 { Primes9(n); }
    if 112 <= n <= 122 { Primes10(n); }
    if 123 <= n <= 131 { Primes11(n); }
    if 132 <= n <= 142 { Primes12(n); }
    if 143 <= n <= 153 { Primes13(n); }
    if 154 <= n <= 164 { Primes14(n); }
    if 165 <= n <= 173 { Primes15(n); }
    if 174 <= n <= 186 { Primes16(n); }
    if 187 <= n <= 199 { Primes17(n); }
    if 200 <= n <= 212 { Primes18(n); }
    if 213 <= n <= 223 { Primes19(n); }
    if 224 <= n <= 233 { Primes20(n); }
    if 234 <= n <= 243 { Primes21(n); }
    if 244 <= n <= 253 { Primes22(n); }
    if 254 <= n <= 263 { Primes23(n); }
    if 264 <= n <= 275 { Primes24(n); }
    if 276 <= n <= 287 { Primes25(n); }
    if 288 <= n <= 299 { Primes26(n); }
    if 300 <= n <= 311 { Primes27(n); }
  }

  lemma Ascend0()
    ensures |PRIMES| == 64 && forall i :: 0 < i < 16 ==> PRIMES[i - 1] < PRIMES[i]
  {
    assert PRIMES[0] == 2 && PRIMES[1] == 3 && PRIMES[2] == 5 && PRIMES[3] == 7 && PRIMES[4] == 11
        && PRIMES[5] == 13 && PRIMES[6] == 17 && PRIMES[7] == 19 && PRIMES[8] == 23 && PRIMES[9] == 29
        && PRIMES[10] == 31 && PRIMES[11] == 37 && PRIMES[12] == 41 && PRIMES[13] == 43 && PRIMES[14] == 47
        && PRIMES[15] == 53;
  }

  lemma Ascend1()
    ensures |PRIMES| == 64 && forall i :: 15 < i < 32 ==> PRIMES[i - 1] < PRIMES[i]
  {
    assert PRIMES[15] == 53 && PRIMES[16] == 59 && PRIMES[17] == 61 && PRIMES[18] == 67 && PRIMES[19] == 71
        && PRIMES[20] == 73 && PRIMES[21] == 79 && PRIMES[22] == 83 && PRIMES[23] == 89 && PRIMES[24] == 97
        && PRIMES[25] == 101 && PRIMES[26] == 103 && PRIMES[27] == 107 && PRIMES[28] == 109 && PRIMES[29] == 113
        && PRIMES[30] == 127 && PRIMES[31] == 131;
  }

  lemma Ascend2()
    ensures |PRIMES| == 64 && forall i :: 31 < i < 48 ==> PRIMES[i - 1] < PRIMES[i]
  {
    assert PRIMES[31] == 131 && PRIMES[32] == 137 && PRIMES[33] == 139 && PRIMES[34] == 149 && PRIMES[35] == 151
        && PRIMES[36] == 157 && PRIMES[37] == 163 && PRIMES[38] == 167 && PRIMES[39] == 173 && PRIMES[40] == 179
        && PRIMES[41] == 181 && PRIMES[42] == 191 && PRIMES[43] == 193 && PRIMES[44] == 197 && PRIMES[45] == 199
        && PRIMES[46] == 211 && PRIMES[47] == 223;
  }

  lemma Ascend3()
    ensures |PRIMES| == 64 && forall i :: 47 < i < 64 ==> PRIMES[i - 1] < PRIMES[i]
  {
    assert PRIMES[47] == 223 && PRIMES[48] == 227 && PRIMES[49] == 229 && PRIMES[50] == 233 && PRIMES[51] == 239
        && PRIMES[52] == 241 && PRIMES[53] == 251 && PRIMES[54] == 257 && PRIMES[55] == 263 && PRIMES[56] == 269
        && PRIMES[57] == 271 && PRIMES[58] == 277 && PRIMES[59] == 281 && PRIMES[60] == 283 && PRIMES[61] == 293
        && PRIMES[62] == 307 && PRIMES[63] == 311;
  }

  lemma PrimesAscend()
    ensures |PRIMES| == 64 && forall i :: 0 < i < 64 ==> PRIMES[i - 1] < PRIMES[i]
  {
    hide PRIMES;
    Ascend0();
    Ascend1();
    Ascend2();
    Ascend3();
  }

  /** `PRIMES` lists the first 64 primes in order. */
  lemma FirstPrimes()
    ensures |PRIMES| == 64 && forall i :: 0 < i < 64 ==> PRIMES[i - 1] < PRIMES[i]
    ensures forall n :: 2 <= n <= 311 ==> (IsPrime(n) <==> n in PRIMES)
  {
    PrimesAscend();
    forall n | 2 <= n <= 311 ensures IsPrime(n) <==> n in PRIMES {
      SieveIsExact(n);
      hide IsPrime, Sieved, PRIMES, P0, P1, P2, P3, P4, P5, P6, P7;
      RowOf(n);
      RowBounds(n);
      RowDecides(n);
    }
  }

  lemma RowOf(n: nat)
    ensures n in PRIMES <==> n in P0 || n in P1 || n in P2 || n in P3 || n in P4 || n in P5 || n in P6 || n in P7
  {
    var low, high := P0 + P1 + P2 + P3, P4 + P5 + P6 + P7;
    assert PRIMES == low + high;
  }

  lemma RowBounds(n: nat)
    ensures n in P0 ==> 2 <= n <= 19
    ensures n in P1 ==> 23 <= n <= 53
    ensures n in P2 ==> 59 <= n <= 89
    ensures n in P3 ==> 97 <= n <= 131
    ensures n in P4 ==> 137 <= n <= 173
    ensures n in P5 ==> 179 <= n <= 223
    ensures n in P6 ==> 227 <= n <= 263
    ensures n in P7 ==> 269 <= n <= 311
  {
  }

  // ---------------------------------------------------------------- roots of primes

  /** `r` is the cube root of `p`, cut off after 32 binary places. */
  predicate IsCubeRoot(p: nat, r: nat) {
    r * r * r <= p * 0x1_0000_0000_0000_0000_0000_0000 < (r + 1) * (r + 1) * (r + 1)
  }

  predicate IsSquareRoot(p: nat, r: nat) {
    r * r <= p * 0x1_0000_0000_0000_0000 < (r + 1) * (r + 1)
  }

  predicate CubeRootIs(p: nat, whole: nat, places: word) {
    IsCubeRoot(p, whole * 0x1_0000_0000 + places as nat)
  }

  predicate SquareRootIs(p: nat, whole: nat, places: word) {
    IsSquareRoot(p, whole * 0x1_0000_0000 + places as nat)
  }

  /** `k` is the first 32 bits of the fractional part of the cube root of `p`. */
  ghost predicate CubeRootBits(p: nat, k: word) {
    exists whole: nat :: CubeRootIs(p, whole, k)
  }

  /** The same for the square root. */
  ghost predicate SquareRootBits(p: nat, k: word) {
    exists whole: nat :: SquareRootIs(p, whole, k)
  }

  lemma CubeRoots0()
    ensures forall i :: 0 <= i < 4 ==> CubeRootBits(PRIMES[i], K[i])
  {
    hide CubeRootBits;
    CubeRoot(0, 2, 1, 0x428a2f98);
    CubeRoot(1, 3, 1, 0x71374491);
    CubeRoot(2, 5, 1, 0xb5c0fbcf);
    CubeRoot(3, 7, 1, 0xe9b5dba5);
  }

  lemma CubeRoots1()
    ensures forall i :: 4 <= i < 8 ==> CubeRootBits(PRIMES[i], K[i])
  {
    hide CubeRootBits;
    CubeRoot(4, 11, 2, 0x3956c25b);
    CubeRoot(5, 13, 2, 0x59f111f1);
    CubeRoot(6, 17, 2, 0x923f82a4);
    CubeRoot(7, 19, 2, 0xab1c5ed5);
  }

  lemma CubeRoots2()
    ensures forall i :: 8 <= i < 12 ==> CubeRootBits(PRIMES[i], K[i])
  {
    hide CubeRootBits;
    CubeRoot(8, 23, 2, 0xd807aa98);
    CubeRoot(9, 29, 3, 0x12835b01);
    CubeRoot(10, 31, 3, 0x243185be);
    CubeRoot(11, 37, 3, 0x550c7dc3);
  }

  lemma CubeRoots3()
    ensures forall i :: 12 <= i < 16 ==> CubeRootBits(PRIMES[i], K[i])
  {
    hide CubeRootBits;
    CubeRoot(12, 41, 3, 0x72be5d74);
    CubeRoot(13, 43, 3, 0x80deb1fe);
    CubeRoot(14, 47, 3, 0x9bdc06a7);
    CubeRoot(15, 53, 3, 0xc19bf174);
  }

  lemma CubeRoots4()
    ensures forall i :: 16 <= i < 20 ==> CubeRootBits(PRIMES[i], K[i])
  {
    hide CubeRootBits;
    CubeRoot(16, 59, 3, 0xe49b69c1);
    CubeRoot(17, 61, 3, 0xefbe4786);
    CubeRoot(18, 67, 4, 0x0fc19dc6);
    CubeRoot(19, 71, 4, 0x240ca1cc);
  }

  lemma CubeRoots5()
    ensures forall i :: 20 <= i < 24 ==> CubeRootBits(PRIMES[i], K[i])
  {
    hide CubeRootBits;
    CubeRoot(20, 73, 4, 0x2de92c6f);
    CubeRoot(21, 79, 4, 0x4a7484aa);
    CubeRoot(22, 83, 4, 0x5cb0a9dc);
    CubeRoot(23, 89, 4, 0x76f988da);
  }

  lemma CubeRoots6()
    ensures forall i :: 24 <= i < 28 ==> CubeRootBits(PRIMES[i], K[i])
  {
    hide CubeRootBits;
    CubeRoot(24, 97, 4, 0x983e5152);
    CubeRoot(25, 101, 4, 0xa831c66d);
    CubeRoot(26, 103, 4, 0xb00327c8);
    CubeRoot(27, 107, 4, 0xbf597fc7);
  }

  lemma CubeRoots7()
    ensures forall i :: 28 <= i < 32 ==> CubeRootBits(PRIMES[i], K[i])
  {
    hide CubeRootBits;
    CubeRoot(28, 109, 4, 0xc6e00bf3);
    CubeRoot(29, 113, 4, 0xd5a79147);
    CubeRoot(30, 127, 5, 0x06ca6351);
    CubeRoot(31, 131, 5, 0x14292967);
  }

  lemma CubeRoots8()
    ensures forall i :: 32 <= i < 36 ==> CubeRootBits(PRIMES[i], K[i])
  {
    hide CubeRootBits;
    CubeRoot(32, 137, 5, 0x27b70a85);
    CubeRoot(33, 139, 5, 0x2e1b2138);
    CubeRoot(34, 149, 5, 0x4d2c6dfc);
    CubeRoot(35, 151, 5, 0x53380d13);
  }

  lemma CubeRoots9()
    ensures forall i :: 36 <= i < 40 ==> CubeRootBits(PRIMES[i], K[i])
  {
    hide CubeRootBits;
    CubeRoot(36, 157, 5, 0x650a7354);
    CubeRoot(37, 163, 5, 0x766a0abb);
    CubeRoot(38, 167, 5, 0x81c2c92e);
    CubeRoot(39, 173, 5, 0x92722c85);
  }

  lemma CubeRoots10()
    ensures forall i :: 40 <= i < 44 ==> CubeRootBits(PRIMES[i], K[i])
  {
    hide CubeRootBits;
    CubeRoot(40, 179, 5, 0xa2bfe8a1);
    CubeRoot(41, 181, 5, 0xa81a664b);
    CubeRoot(42, 191, 5, 0xc24b8b70);
    CubeRoot(43, 193, 5, 0xc76c51a3);
  }

  lemma CubeRoots11()
    ensures forall i :: 44 <= i < 48 ==> CubeRootBits(PRIMES[i], K[i])
  {
    hide CubeRootBits;
    CubeRoot(44, 197, 5, 0xd192e819);
    CubeRoot(45, 199, 5, 0xd6990624);
    CubeRoot(46, 211, 5, 0xf40e3585);
    CubeRoot(47, 223, 6, 0x106aa070);
  }

  lemma CubeRoots12()
    ensures forall i :: 48 <= i < 52 ==> CubeRootBits(PRIMES[i], K[i])
  {
    hide CubeRootBits;
    CubeRoot(48, 227, 6, 0x19a4c116);
    CubeRoot(49, 229, 6, 0x1e376c08);
    CubeRoot(50, 233, 6, 0x2748774c);
    CubeRoot(51, 239, 6, 0x34b0bcb5);
  }

  lemma CubeRoots13()
    ensures forall i :: 52 <= i < 56 ==> CubeRootBits(PRIMES[i], K[i])
  {
    hide CubeRootBits;
    CubeRoot(52, 241, 6, 0x391c0cb3);
    CubeRoot(53, 251, 6, 0x4ed8aa4a);
    CubeRoot(54, 257, 6, 0x5b9cca4f);
    CubeRoot(55, 263, 6, 0x682e6ff3);
  }

  lemma CubeRoots14()
    ensures forall i :: 56 <= i < 60 ==> CubeRootBits(PRIMES[i], K[i])
  {
    hide CubeRootBits;
    CubeRoot(56, 269, 6, 0x748f82ee);
    CubeRoot(57, 271, 6, 0x78a5636f);
    CubeRoot(58, 277, 6, 0x84c87814);
    CubeRoot(59, 281, 6, 0x8cc70208);
  }

  lemma CubeRoots15()
    ensures forall i :: 60 <= i < 64 ==> CubeRootBits(PRIMES[i], K[i])
  {
    hide CubeRootBits;
    CubeRoot(60, 283, 6, 0x90befffa);
    CubeRoot(61, 293, 6, 0xa4506ceb);
    CubeRoot(62, 307, 6, 0xbef9a3f7);
    CubeRoot(63, 311, 6, 0xc67178f2);
  }

  lemma CubeRoot(i: nat, p: nat, whole: nat, k: word)
    requires i < 64 && PRIMES[i] == p && K[i] == k && CubeRootIs(p, whole, k)
    ensures CubeRootBits(PRIMES[i], K[i])
  {
  }

  /** The round constants are the first 32 bits of the fractional parts of the cube roots of the first 64 primes. */
  lemma RoundConstants()
    ensures forall i :: 0 <= i < 64 ==> CubeRootBits(PRIMES[i], K[i])
  {
    hide CubeRootBits, PRIMES, K;
    CubeRoots0(); CubeRoots1(); CubeRoots2(); CubeRoots3();
    CubeRoots4(); CubeRoots5(); CubeRoots6(); CubeRoots7();
    CubeRoots8(); CubeRoots9(); CubeRoots10(); CubeRoots11();
    CubeRoots12(); CubeRoots13(); CubeRoots14(); CubeRoots15();
  }

  lemma SquareRoots0()
    ensures forall i :: 0 <= i < 4 ==> SquareRootBits(PRIMES[i], Words(INITIAL)[i])
  {
    hide SquareRootBits;
    SquareRoot(0, 2, 1, 0x6a09e667);
    SquareRoot(1, 3, 1, 0xbb67ae85);
    SquareRoot(2, 5, 2, 0x3c6ef372);
    SquareRoot(3, 7, 2, 0xa54ff53a);
  }

  lemma SquareRoots1()
    ensures forall i :: 4 <= i < 8 ==> SquareRootBits(PRIMES[i], Words(INITIAL)[i])
  {
    hide SquareRootBits;
    SquareRoot(4, 11, 3, 0x510e527f);
    SquareRoot(5, 13, 3, 0x9b05688c);
    SquareRoot(6, 17, 4, 0x1f83d9ab);
    SquareRoot(7, 19, 4, 0x5be0cd19);
  }

  /** The initial hash value: the same for the square roots of the first eight primes. */
  lemma InitialHash()
    ensures forall i :: 0 <= i < 8 ==> SquareRootBits(PRIMES[i], Words(INITIAL)[i])
  {
    hide SquareRootBits, PRIMES, Words;
    SquareRoots0();
    SquareRoots1();
  }

  lemma SquareRoot(i: nat, p: nat, whole: nat, k: word)
    requires i < 8 && PRIMES[i] == p && Words(INITIAL)[i] == k && SquareRootIs(p, whole, k)
    ensures SquareRootBits(PRIMES[i], Words(INITIAL)[i])
  {
  }
}
