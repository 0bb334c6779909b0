/**
  The numbers behind SHA-256: its constants as the roots the standard takes them from, and its
  byte order as arithmetic.
*/
module Sha256Constants {
  import opened Sha256Padding
  import opened Sha256

  /** The first 64 primes. */
  const PrimeRows: seq<seq<nat>> := [
    [2, 3, 5, 7, 11, 13, 17, 19],
    [23, 29, 31, 37, 41, 43, 47, 53],
    [59, 61, 67, 71, 73, 79, 83, 89],
    [97, 101, 103, 107, 109, 113, 127, 131],
    [137, 139, 149, 151, 157, 163, 167, 173],
    [179, 181, 191, 193, 197, 199, 211, 223],
    [227, 229, 233, 239, 241, 251, 257, 263],
    [269, 271, 277, 281, 283, 293, 307, 311]
  ]

  function Prime(t: nat): nat
    requires t < 64
  {
    PrimeRows[t / 8][t % 8]
  }

  /** `n` is the first 32 bits of the fraction of the cube root of `p`, `whole` being the rest of it. */
  predicate IsCubeRoot(n: nat, p: nat, whole: nat) {
    var x := whole * 0x1_0000_0000 + n;
    n < 0x1_0000_0000 && x * x * x <= p * 0x1_0000_0000_0000_0000_0000_0000 < (x + 1) * (x + 1) * (x + 1)
  }

  predicate IsSquareRoot(n: nat, p: nat, whole: nat) {
    var x := whole * 0x1_0000_0000 + n;
    n < 0x1_0000_0000 && x * x <= p * 0x1_0000_0000_0000_0000 < (x + 1) * (x + 1)
  }

  /** The constant of a round is that fraction for the prime of the round. */
  ghost predicate KFromPrime(t: nat)
    requires t < 64
  {
    exists n: nat, whole: nat :: IsCubeRoot(n, Prime(t), whole) && K(t) == n as bv32
  }

  /** And a word of the first hash value for the square root. */
  ghost predicate StartFromPrime(t: nat)
    requires t < 8
  {
    exists n: nat, whole: nat :: IsSquareRoot(n, Prime(t), whole) && Start[t] == n as bv32
  }

  lemma KRow0()
    ensures forall t :: 0 <= t < 4 ==> KFromPrime(t)
  {
    assert IsCubeRoot(0x428a2f98, Prime(0), 1) && K(0) == 0x428a2f98;
    assert IsCubeRoot(0x71374491, Prime(1), 1) && K(1) == 0x71374491;
    assert IsCubeRoot(0xb5c0fbcf, Prime(2), 1) && K(2) == 0xb5c0fbcf;
    assert IsCubeRoot(0xe9b5dba5, Prime(3), 1) && K(3) == 0xe9b5dba5;
  }

  lemma KRow1()
    ensures forall t :: 4 <= t < 8 ==> KFromPrime(t)
  {
    assert IsCubeRoot(0x3956c25b, Prime(4), 2) && K(4) == 0x3956c25b;
    assert IsCubeRoot(0x59f111f1, Prime(5), 2) && K(5) == 0x59f111f1;
    assert IsCubeRoot(0x923f82a4, Prime(6), 2) && K(6) == 0x923f82a4;
    assert IsCubeRoot(0xab1c5ed5, Prime(7), 2) && K(7) == 0xab1c5ed5;
  }

  lemma KRow2()
    ensures forall t :: 8 <= t < 12 ==> KFromPrime(t)
  {
    assert IsCubeRoot(0xd807aa98, Prime(8), 2) && K(8) == 0xd807aa98;
    assert IsCubeRoot(0x12835b01, Prime(9), 3) && K(9) == 0x12835b01;
    assert IsCubeRoot(0x243185be, Prime(10), 3) && K(10) == 0x243185be;
    assert IsCubeRoot(0x550c7dc3, Prime(11), 3) && K(11) == 0x550c7dc3;
  }

  lemma KRow3()
    ensures forall t :: 12 <= t < 16 ==> KFromPrime(t)
  {
    assert IsCubeRoot(0x72be5d74, Prime(12), 3) && K(12) == 0x72be5d74;
    assert IsCubeRoot(0x80deb1fe, Prime(13), 3) && K(13) == 0x80deb1fe;
    assert IsCubeRoot(0x9bdc06a7, Prime(14), 3) && K(14) == 0x9bdc06a7;
    assert IsCubeRoot(0xc19bf174, Prime(15), 3) && K(15) == 0xc19bf174;
  }

  lemma KRow4()
    ensures forall t :: 16 <= t < 20 ==> KFromPrime(t)
  {
    assert IsCubeRoot(0xe49b69c1, Prime(16), 3) && K(16) == 0xe49b69c1;
    assert IsCubeRoot(0xefbe4786, Prime(17), 3) && K(17) == 0xefbe4786;
    assert IsCubeRoot(0x0fc19dc6, Prime(18), 4) && K(18) == 0x0fc19dc6;
    assert IsCubeRoot(0x240ca1cc, Prime(19), 4) && K(19) == 0x240ca1cc;
  }

  lemma KRow5()
    ensures forall t :: 20 <= t < 24 ==> KFromPrime(t)
  {
    assert IsCubeRoot(0x2de92c6f, Prime(20), 4) && K(20) == 0x2de92c6f;
    assert IsCubeRoot(0x4a7484aa, Prime(21), 4) && K(21) == 0x4a7484aa;
    assert IsCubeRoot(0x5cb0a9dc, Prime(22), 4) && K(22) == 0x5cb0a9dc;
    assert IsCubeRoot(0x76f988da, Prime(23), 4) && K(23) == 0x76f988da;
  }

  lemma KRow6()
    ensures forall t :: 24 <= t < 28 ==> KFromPrime(t)
  {
    assert IsCubeRoot(0x983e5152, Prime(24), 4) && K(24) == 0x983e5152;
    assert IsCubeRoot(0xa831c66d, Prime(25), 4) && K(25) == 0xa831c66d;
    assert IsCubeRoot(0xb00327c8, Prime(26), 4) && K(26) == 0xb00327c8;
    assert IsCubeRoot(0xbf597fc7, Prime(27), 4) && K(27) == 0xbf597fc7;
  }

  lemma KRow7()
    ensures forall t :: 28 <= t < 32 ==> KFromPrime(t)
  {
    assert IsCubeRoot(0xc6e00bf3, Prime(28), 4) && K(28) == 0xc6e00bf3;
    assert IsCubeRoot(0xd5a79147, Prime(29), 4) && K(29) == 0xd5a79147;
    assert IsCubeRoot(0x06ca6351, Prime(30), 5) && K(30) == 0x06ca6351;
    assert IsCubeRoot(0x14292967, Prime(31), 5) && K(31) == 0x14292967;
  }

  lemma KRow8()
    ensures forall t :: 32 <= t < 36 ==> KFromPrime(t)
  {
    assert IsCubeRoot(0x27b70a85, Prime(32), 5) && K(32) == 0x27b70a85;
    assert IsCubeRoot(0x2e1b2138, Prime(33), 5) && K(33) == 0x2e1b2138;
    assert IsCubeRoot(0x4d2c6dfc, Prime(34), 5) && K(34) == 0x4d2c6dfc;
    assert IsCubeRoot(0x53380d13, Prime(35), 5) && K(35) == 0x53380d13;
  }

  lemma KRow9()
    ensures forall t :: 36 <= t < 40 ==> KFromPrime(t)
  {
    assert IsCubeRoot(0x650a7354, Prime(36), 5) && K(36) == 0x650a7354;
    assert IsCubeRoot(0x766a0abb, Prime(37), 5) && K(37) == 0x766a0abb;
    assert IsCubeRoot(0x81c2c92e, Prime(38), 5) && K(38) == 0x81c2c92e;
    assert IsCubeRoot(0x92722c85, Prime(39), 5) && K(39) == 0x92722c85;
  }

  lemma KRow10()
    ensures forall t :: 40 <= t < 44 ==> KFromPrime(t)
  {
    assert IsCubeRoot(0xa2bfe8a1, Prime(40), 5) && K(40) == 0xa2bfe8a1;
    assert IsCubeRoot(0xa81a664b, Prime(41), 5) && K(41) == 0xa81a664b;
    assert IsCubeRoot(0xc24b8b70, Prime(42), 5) && K(42) == 0xc24b8b70;
    assert IsCubeRoot(0xc76c51a3, Prime(43), 5) && K(43) == 0xc76c51a3;
  }

  lemma KRow11()
    ensures forall t :: 44 <= t < 48 ==> KFromPrime(t)
  {
    assert IsCubeRoot(0xd192e819, Prime(44), 5) && K(44) == 0xd192e819;
    assert IsCubeRoot(0xd6990624, Prime(45), 5) && K(45) == 0xd6990624;
    assert IsCubeRoot(0xf40e3585, Prime(46), 5) && K(46) == 0xf40e3585;
    assert IsCubeRoot(0x106aa070, Prime(47), 6) && K(47) == 0x106aa070;
  }

  lemma KRow12()
    ensures forall t :: 48 <= t < 52 ==> KFromPrime(t)
  {
    assert IsCubeRoot(0x19a4c116, Prime(48), 6) && K(48) == 0x19a4c116;
    assert IsCubeRoot(0x1e376c08, Prime(49), 6) && K(49) == 0x1e376c08;
    assert IsCubeRoot(0x2748774c, Prime(50), 6) && K(50) == 0x2748774c;
    assert IsCubeRoot(0x34b0bcb5, Prime(51), 6) && K(51) == 0x34b0bcb5;
  }

  lemma KRow13()
    ensures forall t :: 52 <= t < 56 ==> KFromPrime(t)
  {
    assert IsCubeRoot(0x391c0cb3, Prime(52), 6) && K(52) == 0x391c0cb3;
    assert IsCubeRoot(0x4ed8aa4a, Prime(53), 6) && K(53) == 0x4ed8aa4a;
    assert IsCubeRoot(0x5b9cca4f, Prime(54), 6) && K(54) == 0x5b9cca4f;
    assert IsCubeRoot(0x682e6ff3, Prime(55), 6) && K(55) == 0x682e6ff3;
  }

  lemma KRow14()
    ensures forall t :: 56 <= t < 60 ==> KFromPrime(t)
  {
    assert IsCubeRoot(0x748f82ee, Prime(56), 6) && K(56) == 0x748f82ee;
    assert IsCubeRoot(0x78a5636f, Prime(57), 6) && K(57) == 0x78a5636f;
    assert IsCubeRoot(0x84c87814, Prime(58), 6) && K(58) == 0x84c87814;
    assert IsCubeRoot(0x8cc70208, Prime(59), 6) && K(59) == 0x8cc70208;
  }

  lemma KRow15()
    ensures forall t :: 60 <= t < 64 ==> KFromPrime(t)
  {
    assert IsCubeRoot(0x90befffa, Prime(60), 6) && K(60) == 0x90befffa;
    assert IsCubeRoot(0xa4506ceb, Prime(61), 6) && K(61) == 0xa4506ceb;
    assert IsCubeRoot(0xbef9a3f7, Prime(62), 6) && K(62) == 0xbef9a3f7;
    assert IsCubeRoot(0xc67178f2, Prime(63), 6) && K(63) == 0xc67178f2;
  }

  /** Section 4.2.2 of FIPS 180-4: every round constant is a cube root's fraction. */
  lemma RoundConstants(t: nat)
    requires t < 64
    ensures KFromPrime(t)
  {
    hide KFromPrime;
    KRow0();
    KRow1();
    KRow2();
    KRow3();
    KRow4();
    KRow5();
    KRow6();
    KRow7();
    KRow8();
    KRow9();
    KRow10();
    KRow11();
    KRow12();
    KRow13();
    KRow14();
    KRow15();
  }

  lemma StartRow0()
    ensures forall t :: 0 <= t < 4 ==> StartFromPrime(t)
  {
    assert IsSquareRoot(0x6a09e667, Prime(0), 1) && Start[0] == 0x6a09e667;
    assert IsSquareRoot(0xbb67ae85, Prime(1), 1) && Start[1] == 0xbb67ae85;
    assert IsSquareRoot(0x3c6ef372, Prime(2), 2) && Start[2] == 0x3c6ef372;
    assert IsSquareRoot(0xa54ff53a, Prime(3), 2) && Start[3] == 0xa54ff53a;
  }

  lemma StartRow1()
    ensures forall t :: 4 <= t < 8 ==> StartFromPrime(t)
  {
    assert IsSquareRoot(0x510e527f, Prime(4), 3) && Start[4] == 0x510e527f;
    assert IsSquareRoot(0x9b05688c, Prime(5), 3) && Start[5] == 0x9b05688c;
    assert IsSquareRoot(0x1f83d9ab, Prime(6), 4) && Start[6] == 0x1f83d9ab;
    assert IsSquareRoot(0x5be0cd19, Prime(7), 4) && Start[7] == 0x5be0cd19;
  }

  /** Section 5.3.3: the first hash value is square roots' fractions. */
  lemma StartConstants(t: nat)
    requires t < 8
    ensures StartFromPrime(t)
  {
    hide StartFromPrime;
    StartRow0();
    StartRow1();
  }

  // ----- bytes -----

  lemma ByteFits(b: byte)
    ensures b as bv32 < 0x100
  {
  }

  lemma OrIsSum(x: bv32, y: bv32, z: bv32, w: bv32)
    requires x < 0x100 && y < 0x100 && z < 0x100 && w < 0x100
    ensures (x << 24) | (y << 16) | (z << 8) | w == x * 0x100_0000 + y * 0x1_0000 + z * 0x100 + w
  {
  }

  /** Big-endian: the first byte of a word counts for 2^24. */
  lemma WordIsNumber(b0: byte, b1: byte, b2: byte, b3: byte)
    ensures Word(b0, b1, b2, b3)
         == b0 as bv32 * 0x100_0000 + b1 as bv32 * 0x1_0000 + b2 as bv32 * 0x100 + b3 as bv32
  {
    ByteFits(b0);
    ByteFits(b1);
    ByteFits(b2);
    ByteFits(b3);
    OrIsSum(b0 as bv32, b1 as bv32, b2 as bv32, b3 as bv32);
  }

  /** So the digest: the bytes of a word, first to last, are its digits to base 2^8. */
  lemma WordBytesAreDigits(w: bv32)
    ensures var b := WordBytes(w);
            w == b[0] as bv32 * 0x100_0000 + b[1] as bv32 * 0x1_0000 + b[2] as bv32 * 0x100 + b[3] as bv32
  {
  }

  // ----- the functions of section 4.1.2 -----

  /** A bit goes to the places its rotations send it, round the corner, or falls off a shift. */
  lemma SigmasOfTopBit()
    ensures BigSigma0(0x8000_0000) == 0x2004_0200 && BigSigma1(0x8000_0000) == 0x0210_0040
    ensures SmallSigma0(0x8000_0000) == 0x1100_2000 && SmallSigma1(0x8000_0000) == 0x0020_5000
  {
  }

  lemma SigmasOfLowBit()
    ensures BigSigma0(1) == 0x4008_0400 && BigSigma1(1) == 0x0420_0080
    ensures SmallSigma0(1) == 0x0200_4000 && SmallSigma1(1) == 0x0000_a000
  {
  }

  /** The first argument chooses between the others, bit by bit. */
  lemma ChChooses(x: bv32, y: bv32, z: bv32)
    ensures Ch(x, y, z) & x == y & x && Ch(x, y, z) & !x == z & !x
  {
  }

  /** Two arguments that agree outvote the third. */
  lemma MajIsMajority(x: bv32, y: bv32)
    ensures Maj(x, x, y) == x && Maj(x, y, x) == x && Maj(y, x, x) == x
  {
  }
}
