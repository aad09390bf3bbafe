/**
 * The constants of SHA-256 (web/ui_sync.js) are the ones sections 4.2.2 and 5.3.3 of
 * FIPS 180-4 derive: the first 32 bits of the fractional parts of roots of primes.
 */
module Sha256Constants {
  import opened Sha256

  /** The first sixty-four primes. */
  const PRIME_ROWS: seq<seq<nat>> := [
    [2, 3, 5, 7, 11, 13, 17, 19],
    [23, 29, 31, 37, 41, 43, 47, 53],
    [59, 61, 67, 71, 73, 79, 83, 89],
    [97, 101, 103, 107, 109, 113, 127, 131],
    [137, 139, 149, 151, 157, 163, 167, 173],
    [179, 181, 191, 193, 197, 199, 211, 223],
    [227, 229, 233, 239, 241, 251, 257, 263],
    [269, 271, 277, 281, 283, 293, 307, 311]]

  function Prime(i: nat): nat
    requires i < 64
  {
    PRIME_ROWS[i / 8][i % 8]
  }

  /** k holds the first 32 fractional bits of the cube root of p, whose whole part is q. */
  predicate CubeRootBits(k: Word, p: nat, q: nat) {
    var n := q * MOD + k;
    n * n * n <= p * MOD * MOD * MOD < (n + 1) * (n + 1) * (n + 1)
  }

  /** k holds the first 32 fractional bits of the square root of p, whose whole part is q. */
  predicate SquareRootBits(k: Word, p: nat, q: nat) {
    var n := q * MOD + k;
    n * n <= p * MOD * MOD < (n + 1) * (n + 1)
  }

  lemma Row0()
    ensures forall j | 0 <= j < 8 :: CubeRootBits(K_ROWS[0][j], PRIME_ROWS[0][j], CubeRoot(PRIME_ROWS[0][j]))
  {
    var ks, ps := K_ROWS[0], PRIME_ROWS[0];
    assert CubeRootBits(ks[0], ps[0], 1);
    assert CubeRootBits(ks[1], ps[1], 1);
    assert CubeRootBits(ks[2], ps[2], 1);
    assert CubeRootBits(ks[3], ps[3], 1);
    assert CubeRootBits(ks[4], ps[4], 2);
    assert CubeRootBits(ks[5], ps[5], 2);
    assert CubeRootBits(ks[6], ps[6], 2);
    assert CubeRootBits(ks[7], ps[7], 2);
  }

  lemma Row1()
    ensures forall j | 0 <= j < 8 :: CubeRootBits(K_ROWS[1][j], PRIME_ROWS[1][j], CubeRoot(PRIME_ROWS[1][j]))
  {
    var ks, ps := K_ROWS[1], PRIME_ROWS[1];
    assert CubeRootBits(ks[0], ps[0], 2);
    assert CubeRootBits(ks[1], ps[1], 3);
    assert CubeRootBits(ks[2], ps[2], 3);
    assert CubeRootBits(ks[3], ps[3], 3);
    assert CubeRootBits(ks[4], ps[4], 3);
    assert CubeRootBits(ks[5], ps[5], 3);
    assert CubeRootBits(ks[6], ps[6], 3);
    assert CubeRootBits(ks[7], ps[7], 3);
  }

  lemma Row2()
    ensures forall j | 0 <= j < 8 :: CubeRootBits(K_ROWS[2][j], PRIME_ROWS[2][j], CubeRoot(PRIME_ROWS[2][j]))
  {
    var ks, ps := K_ROWS[2], PRIME_ROWS[2];
    assert CubeRootBits(ks[0], ps[0], 3);
    assert CubeRootBits(ks[1], ps[1], 3);
    assert CubeRootBits(ks[2], ps[2], 4);
    assert CubeRootBits(ks[3], ps[3], 4);
    assert CubeRootBits(ks[4], ps[4], 4);
    assert CubeRootBits(ks[5], ps[5], 4);
    assert CubeRootBits(ks[6], ps[6], 4);
    assert CubeRootBits(ks[7], ps[7], 4);
  }

  lemma Row3()
    ensures forall j | 0 <= j < 8 :: CubeRootBits(K_ROWS[3][j], PRIME_ROWS[3][j], CubeRoot(PRIME_ROWS[3][j]))
  {
    var ks, ps := K_ROWS[3], PRIME_ROWS[3];
    assert CubeRootBits(ks[0], ps[0], 4);
    assert CubeRootBits(ks[1], ps[1], 4);
    assert CubeRootBits(ks[2], ps[2], 4);
    assert CubeRootBits(ks[3], ps[3], 4);
    assert CubeRootBits(ks[4], ps[4], 4);
    assert CubeRootBits(ks[5], ps[5], 4);
    assert CubeRootBits(ks[6], ps[6], 5);
    assert CubeRootBits(ks[7], ps[7], 5);
  }

  lemma Row4()
    ensures forall j | 0 <= j < 8 :: CubeRootBits(K_ROWS[4][j], PRIME_ROWS[4][j], CubeRoot(PRIME_ROWS[4][j]))
  {
    var ks, ps := K_ROWS[4], PRIME_ROWS[4];
    assert CubeRootBits(ks[0], ps[0], 5);
    assert CubeRootBits(ks[1], ps[1], 5);
    assert CubeRootBits(ks[2], ps[2], 5);
    assert CubeRootBits(ks[3], ps[3], 5);
    assert CubeRootBits(ks[4], ps[4], 5);
    assert CubeRootBits(ks[5], ps[5], 5);
    assert CubeRootBits(ks[6], ps[6], 5);
    assert CubeRootBits(ks[7], ps[7], 5);
  }

  lemma Row5()
    ensures forall j | 0 <= j < 8 :: CubeRootBits(K_ROWS[5][j], PRIME_ROWS[5][j], CubeRoot(PRIME_ROWS[5][j]))
  {
    var ks, ps := K_ROWS[5], PRIME_ROWS[5];
    assert CubeRootBits(ks[0], ps[0], 5);
    assert CubeRootBits(ks[1], ps[1], 5);
    assert CubeRootBits(ks[2], ps[2], 5);
    assert CubeRootBits(ks[3], ps[3], 5);
    assert CubeRootBits(ks[4], ps[4], 5);
    assert CubeRootBits(ks[5], ps[5], 5);
    assert CubeRootBits(ks[6], ps[6], 5);
    assert CubeRootBits(ks[7], ps[7], 6);
  }

  lemma Row6()
    ensures forall j | 0 <= j < 8 :: CubeRootBits(K_ROWS[6][j], PRIME_ROWS[6][j], CubeRoot(PRIME_ROWS[6][j]))
  {
    var ks, ps := K_ROWS[6], PRIME_ROWS[6];
    assert CubeRootBits(ks[0], ps[0], 6);
    assert CubeRootBits(ks[1], ps[1], 6);
    assert CubeRootBits(ks[2], ps[2], 6);
    assert CubeRootBits(ks[3], ps[3], 6);
    assert CubeRootBits(ks[4], ps[4], 6);
    assert CubeRootBits(ks[5], ps[5], 6);
    assert CubeRootBits(ks[6], ps[6], 6);
    assert CubeRootBits(ks[7], ps[7], 6);
  }

  lemma Row7()
    ensures forall j | 0 <= j < 8 :: CubeRootBits(K_ROWS[7][j], PRIME_ROWS[7][j], CubeRoot(PRIME_ROWS[7][j]))
  {
    var ks, ps := K_ROWS[7], PRIME_ROWS[7];
    assert CubeRootBits(ks[0], ps[0], 6);
    assert CubeRootBits(ks[1], ps[1], 6);
    assert CubeRootBits(ks[2], ps[2], 6);
    assert CubeRootBits(ks[3], ps[3], 6);
    assert CubeRootBits(ks[4], ps[4], 6);
    assert CubeRootBits(ks[5], ps[5], 6);
    assert CubeRootBits(ks[6], ps[6], 6);
    assert CubeRootBits(ks[7], ps[7], 6);
  }

  /** The whole part of the cube root of a number below 343. */
  function CubeRoot(p: nat): nat {
    if p < 8 then 1 else if p < 27 then 2 else if p < 64 then 3 else if p < 125 then 4 else if p < 216 then 5 else 6
  }

  /** The round constants are cube roots of the first sixty-four primes. */
  lemma RoundConstants(i: nat)
    requires i < 64
    ensures CubeRootBits(K(i), Prime(i), CubeRoot(Prime(i)))
  {
    hide CubeRootBits, CubeRoot;
    Row0();
    Row1();
    Row2();
    Row3();
    Row4();
    Row5();
    Row6();
    Row7();
  }

  /** The initial hash value is made of square roots of the first eight. */
  lemma InitialValue()
    ensures var h := WordsOf(H0); forall i | 0 <= i < 8 :: SquareRootBits(h[i], Prime(i), SquareRoot(Prime(i)))
  {
    assert SquareRootBits(0x6a09e667, 2, 1) && Prime(0) == 2;
    assert SquareRootBits(0xbb67ae85, 3, 1) && Prime(1) == 3;
    assert SquareRootBits(0x3c6ef372, 5, 2) && Prime(2) == 5;
    assert SquareRootBits(0xa54ff53a, 7, 2) && Prime(3) == 7;
    assert SquareRootBits(0x510e527f, 11, 3) && Prime(4) == 11;
    assert SquareRootBits(0x9b05688c, 13, 3) && Prime(5) == 13;
    assert SquareRootBits(0x1f83d9ab, 17, 4) && Prime(6) == 17;
    assert SquareRootBits(0x5be0cd19, 19, 4) && Prime(7) == 19;
  }

  /** The whole part of the square root of a number below 25. */
  function SquareRoot(p: nat): nat {
    if p < 4 then 1 else if p < 9 then 2 else if p < 16 then 3 else 4
  }
}
