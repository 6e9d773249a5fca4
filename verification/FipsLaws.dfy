/** What the functions and tables of Fips180 are, in terms of integers, bits and roots. */
module FipsLaws {
  import opened Arithmetic
  import opened Fips180
  import opened WordSums

  /** The + of section 2.2.2 is addition of integers modulo 2^32. */
  lemma AddWraps(x: Word, y: Word)
    ensures Add(x, y) as int == (x as int + y as int) % 0x1_0000_0000
  {
    hide *;
    AddIs(x, y);
    WordSum(x, y);
  }

  lemma AddIs(x: Word, y: Word)
    ensures Add(x, y) == Sum(x, y)
  {
  }

  // --- bits

  /** Ch takes the bits of y where x has a 1, and those of z where it has a 0. */
  lemma ChSelects(x: Word, y: Word, z: Word)
    ensures Ch(x, y, z) & x == y & x && Ch(x, y, z) & !x == z & !x
  {
  }

  /** Maj takes the bits in which x and y agree, and those of z in which they differ. */
  lemma MajSelects(x: Word, y: Word, z: Word)
    ensures Maj(x, y, z) & !(x ^ y) == x & !(x ^ y) && Maj(x, y, z) & (x ^ y) == z & (x ^ y)
  {
  }

  /** The first of four octets is the most significant. */
  lemma WordReads(b0: Octet, b1: Octet, b2: Octet, b3: Octet)
    ensures BigEndianWord(b0, b1, b2, b3) as int
         == 0x100_0000 * (b0 as int) + 0x1_0000 * (b1 as int) + 0x100 * (b2 as int) + b3 as int
  {
    hide *;
    WordJoins(b0, b1, b2, b3);
    JoinedReads(b0, b1, b2, b3);
  }

  lemma WordJoins(b0: Octet, b1: Octet, b2: Octet, b3: Octet)
    ensures BigEndianWord(b0, b1, b2, b3) == Joined(b0, b1, b2, b3)
  {
  }

  /** The four octets of a word, the most significant first. */
  lemma OctetsRead(w: Word)
    ensures |WordOctets(w)| == 4
    ensures BigEndianWord(WordOctets(w)[0], WordOctets(w)[1], WordOctets(w)[2], WordOctets(w)[3]) == w
  {
  }

  lemma LowOctetIs(n: nat)
    ensures LowOctet(n) as int == n % 256
  {
    hide OctetOf;
    OctetReads(n % 256);
  }

  /** A string of octets read as one number, the first the most significant. */
  function Read(s: seq<Octet>): nat {
    if s == [] then 0 else 256 * Read(s[..|s| - 1]) + s[|s| - 1] as int
  }

  /** The k-octet field reads as its number modulo 256^k. */
  lemma {:induction false} BigEndianReads(n: nat, k: nat)
    ensures Read(BigEndian(n, k)) == n % Pow256(k)
  {
    hide LowOctet;
    if k > 0 {
      BigEndianReads(n / 256, k - 1);
      LowOctetIs(n);
      SplitLastOctet(n, Pow256(k - 1));
      var r := n % Pow256(k);
      assert r == 256 * (r / 256) + r % 256;
      assert BigEndian(n, k)[..k - 1] == BigEndian(n / 256, k - 1);
    }
  }

  // --- roots

  const PRIMES: seq<nat> :=
    [2, 3, 5, 7, 11, 13, 17, 19] +
    [23, 29, 31, 37, 41, 43, 47, 53] +
    [59, 61, 67, 71, 73, 79, 83, 89] +
    [97, 101, 103, 107, 109, 113, 127, 131] +
    [137, 139, 149, 151, 157, 163, 167, 173] +
    [179, 181, 191, 193, 197, 199, 211, 223] +
    [227, 229, 233, 239, 241, 251, 257, 263] +
    [269, 271, 277, 281, 283, 293, 307, 311]

  /** w is the first 32 bits of the fractional part of the cube root of p, whose whole part is n. */
  predicate CubeRootBits(p: nat, n: nat, w: int) {
    var r := n * 0x1_0000_0000 + w;
    && 0 <= w < 0x1_0000_0000
    && r * r * r <= p * 0x1_0000_0000 * 0x1_0000_0000 * 0x1_0000_0000 < (r + 1) * (r + 1) * (r + 1)
  }

  predicate SquareRootBits(p: nat, n: nat, w: int) {
    var r := n * 0x1_0000_0000 + w;
    && 0 <= w < 0x1_0000_0000
    && r * r <= p * 0x1_0000_0000 * 0x1_0000_0000 < (r + 1) * (r + 1)
  }

  /** The whole part of the cube root of the primes up to 311. */
  function WholeCubeRoot(p: nat): nat {
    if p < 8 then 1 else if p < 27 then 2 else if p < 64 then 3 else if p < 125 then 4 else if p < 216 then 5 else 6
  }

  predicate RootIsK(t: nat) {
    t < |K| && t < |PRIMES| && CubeRootBits(PRIMES[t], WholeCubeRoot(PRIMES[t]), K[t] as int)
  }

  lemma Entry(t: nat, p: nat, n: nat, w: Word)
    requires t < |K| && t < |PRIMES| && K[t] == w && PRIMES[t] == p
    requires WholeCubeRoot(p) == n && CubeRootBits(p, n, w as int)
    ensures RootIsK(t)
  {
  }

  lemma KOfRow0(t: nat)
    requires 0 <= t < 8
    ensures RootIsK(t)
  {
    hide RootIsK;
    match t
    case 0 => Entry(0, 2, 1, 0x428a2f98);
    case 1 => Entry(1, 3, 1, 0x71374491);
    case 2 => Entry(2, 5, 1, 0xb5c0fbcf);
    case 3 => Entry(3, 7, 1, 0xe9b5dba5);
    case 4 => Entry(4, 11, 2, 0x3956c25b);
    case 5 => Entry(5, 13, 2, 0x59f111f1);
    case 6 => Entry(6, 17, 2, 0x923f82a4);
    case 7 => Entry(7, 19, 2, 0xab1c5ed5);
  }

  lemma KOfRow1(t: nat)
    requires 8 <= t < 16
    ensures RootIsK(t)
  {
    hide RootIsK;
    match t
    case 8 => Entry(8, 23, 2, 0xd807aa98);
    case 9 => Entry(9, 29, 3, 0x12835b01);
    case 10 => Entry(10, 31, 3, 0x243185be);
    case 11 => Entry(11, 37, 3, 0x550c7dc3);
    case 12 => Entry(12, 41, 3, 0x72be5d74);
    case 13 => Entry(13, 43, 3, 0x80deb1fe);
    case 14 => Entry(14, 47, 3, 0x9bdc06a7);
    case 15 => Entry(15, 53, 3, 0xc19bf174);
  }

  lemma KOfRow2(t: nat)
    requires 16 <= t < 24
    ensures RootIsK(t)
  {
    hide RootIsK;
    match t
    case 16 => Entry(16, 59, 3, 0xe49b69c1);
    case 17 => Entry(17, 61, 3, 0xefbe4786);
    case 18 => Entry(18, 67, 4, 0x0fc19dc6);
    case 19 => Entry(19, 71, 4, 0x240ca1cc);
    case 20 => Entry(20, 73, 4, 0x2de92c6f);
    case 21 => Entry(21, 79, 4, 0x4a7484aa);
    case 22 => Entry(22, 83, 4, 0x5cb0a9dc);
    case 23 => Entry(23, 89, 4, 0x76f988da);
  }

  lemma KOfRow3(t: nat)
    requires 24 <= t < 32
    ensures RootIsK(t)
  {
    hide RootIsK;
    match t
    case 24 => Entry(24, 97, 4, 0x983e5152);
    case 25 => Entry(25, 101, 4, 0xa831c66d);
    case 26 => Entry(26, 103, 4, 0xb00327c8);
    case 27 => Entry(27, 107, 4, 0xbf597fc7);
    case 28 => Entry(28, 109, 4, 0xc6e00bf3);
    case 29 => Entry(29, 113, 4, 0xd5a79147);
    case 30 => Entry(30, 127, 5, 0x06ca6351);
    case 31 => Entry(31, 131, 5, 0x14292967);
  }

  lemma KOfRow4(t: nat)
    requires 32 <= t < 40
    ensures RootIsK(t)
  {
    hide RootIsK;
    match t
    case 32 => Entry(32, 137, 5, 0x27b70a85);
    case 33 => Entry(33, 139, 5, 0x2e1b2138);
    case 34 => Entry(34, 149, 5, 0x4d2c6dfc);
    case 35 => Entry(35, 151, 5, 0x53380d13);
    case 36 => Entry(36, 157, 5, 0x650a7354);
    case 37 => Entry(37, 163, 5, 0x766a0abb);
    case 38 => Entry(38, 167, 5, 0x81c2c92e);
    case 39 => Entry(39, 173, 5, 0x92722c85);
  }

  lemma KOfRow5(t: nat)
    requires 40 <= t < 48
    ensures RootIsK(t)
  {
    hide RootIsK;
    match t
    case 40 => Entry(40, 179, 5, 0xa2bfe8a1);
    case 41 => Entry(41, 181, 5, 0xa81a664b);
    case 42 => Entry(42, 191, 5, 0xc24b8b70);
    case 43 => Entry(43, 193, 5, 0xc76c51a3);
    case 44 => Entry(44, 197, 5, 0xd192e819);
    case 45 => Entry(45, 199, 5, 0xd6990624);
    case 46 => Entry(46, 211, 5, 0xf40e3585);
    case 47 => Entry(47, 223, 6, 0x106aa070);
  }

  lemma KOfRow6(t: nat)
    requires 48 <= t < 56
    ensures RootIsK(t)
  {
    hide RootIsK;
    match t
    case 48 => Entry(48, 227, 6, 0x19a4c116);
    case 49 => Entry(49, 229, 6, 0x1e376c08);
    case 50 => Entry(50, 233, 6, 0x2748774c);
    case 51 => Entry(51, 239, 6, 0x34b0bcb5);
    case 52 => Entry(52, 241, 6, 0x391c0cb3);
    case 53 => Entry(53, 251, 6, 0x4ed8aa4a);
    case 54 => Entry(54, 257, 6, 0x5b9cca4f);
    case 55 => Entry(55, 263, 6, 0x682e6ff3);
  }

  lemma KOfRow7(t: nat)
    requires 56 <= t < 64
    ensures RootIsK(t)
  {
    hide RootIsK;
    match t
    case 56 => Entry(56, 269, 6, 0x748f82ee);
    case 57 => Entry(57, 271, 6, 0x78a5636f);
    case 58 => Entry(58, 277, 6, 0x84c87814);
    case 59 => Entry(59, 281, 6, 0x8cc70208);
    case 60 => Entry(60, 283, 6, 0x90befffa);
    case 61 => Entry(61, 293, 6, 0xa4506ceb);
    case 62 => Entry(62, 307, 6, 0xbef9a3f7);
    case 63 => Entry(63, 311, 6, 0xc67178f2);
  }

  /** Section 4.2.2: the words of K are the first 32 bits of those fractions for the first 64 primes. */
  lemma KIsCubeRoots(t: nat)
    requires t < 64
    ensures t < |K| && CubeRootBits(PRIMES[t], WholeCubeRoot(PRIMES[t]), K[t] as int)
  {
    hide CubeRootBits, WholeCubeRoot;
    match t / 8
    case 0 => KOfRow0(t);
    case 1 => KOfRow1(t);
    case 2 => KOfRow2(t);
    case 3 => KOfRow3(t);
    case 4 => KOfRow4(t);
    case 5 => KOfRow5(t);
    case 6 => KOfRow6(t);
    case 7 => KOfRow7(t);
  }

  /** Section 5.3.3: the initial hash value comes from the square roots of the first eight. */
  lemma H0IsSquareRoots()
    ensures SquareRootBits(2, 1, H0.a as int) && SquareRootBits(3, 1, H0.b as int)
    ensures SquareRootBits(5, 2, H0.c as int) && SquareRootBits(7, 2, H0.d as int)
    ensures SquareRootBits(11, 3, H0.e as int) && SquareRootBits(13, 3, H0.f as int)
    ensures SquareRootBits(17, 4, H0.g as int) && SquareRootBits(19, 4, H0.h as int)
  {
    assert H0.a as int == 0x6a09e667 && H0.b as int == 0xbb67ae85 && H0.c as int == 0x3c6ef372 && H0.d as int == 0xa54ff53a;
    assert H0.e as int == 0x510e527f && H0.f as int == 0x9b05688c && H0.g as int == 0x1f83d9ab && H0.h as int == 0x5be0cd19;
  }
}
