/**
 SHA-256 as FIPS 180-4 defines it: the functions of section 4.1.2, the constants
 of section 4.2.2, the padding of section 5.1.1, the parsing of section 5.2.1,
 the initial hash value of section 5.3.3 and the computation of section 6.2.2.
 Messages are sequences of whole octets, as every caller in the node has them.
 */
module Fips180 {
  import opened Arithmetic
  import WordSums

  type Octet = bv8
  type Word = bv32

  /** The eight working variables, and also the eight words of a hash value. */
  datatype Vars = Vars(a: Word, b: Word, c: Word, d: Word, e: Word, f: Word, g: Word, h: Word)

  /** Addition modulo 2^32, the + of section 2.2.2 on words. */
  function Add(x: Word, y: Word): Word { x + y }

  function Ch(x: Word, y: Word, z: Word): Word { (x & y) ^ (!x & z) }
  function Maj(x: Word, y: Word, z: Word): Word { (x & y) ^ (x & z) ^ (y & z) }
  function BigSigma0(x: Word): Word { x.RotateRight(2) ^ x.RotateRight(13) ^ x.RotateRight(22) }
  function BigSigma1(x: Word): Word { x.RotateRight(6) ^ x.RotateRight(11) ^ x.RotateRight(25) }
  function SmallSigma0(x: Word): Word { x.RotateRight(7) ^ x.RotateRight(18) ^ (x >> 3) }
  function SmallSigma1(x: Word): Word { x.RotateRight(17) ^ x.RotateRight(19) ^ (x >> 10) }

  const K: seq<Word> :=
    [0x428a2f98, 0x71374491, 0xb5c0fbcf, 0xe9b5dba5, 0x3956c25b, 0x59f111f1, 0x923f82a4, 0xab1c5ed5] +
    [0xd807aa98, 0x12835b01, 0x243185be, 0x550c7dc3, 0x72be5d74, 0x80deb1fe, 0x9bdc06a7, 0xc19bf174] +
    [0xe49b69c1, 0xefbe4786, 0x0fc19dc6, 0x240ca1cc, 0x2de92c6f, 0x4a7484aa, 0x5cb0a9dc, 0x76f988da] +
    [0x983e5152, 0xa831c66d, 0xb00327c8, 0xbf597fc7, 0xc6e00bf3, 0xd5a79147, 0x06ca6351, 0x14292967] +
    [0x27b70a85, 0x2e1b2138, 0x4d2c6dfc, 0x53380d13, 0x650a7354, 0x766a0abb, 0x81c2c92e, 0x92722c85] +
    [0xa2bfe8a1, 0xa81a664b, 0xc24b8b70, 0xc76c51a3, 0xd192e819, 0xd6990624, 0xf40e3585, 0x106aa070] +
    [0x19a4c116, 0x1e376c08, 0x2748774c, 0x34b0bcb5, 0x391c0cb3, 0x4ed8aa4a, 0x5b9cca4f, 0x682e6ff3] +
    [0x748f82ee, 0x78a5636f, 0x84c87814, 0x8cc70208, 0x90befffa, 0xa4506ceb, 0xbef9a3f7, 0xc67178f2]

  const H0 := Vars(0x6a09e667, 0xbb67ae85, 0x3c6ef372, 0xa54ff53a,
                   0x510e527f, 0x9b05688c, 0x1f83d9ab, 0x5be0cd19)

  /** Four octets read as one word, most significant octet first. */
  function BigEndianWord(b0: Octet, b1: Octet, b2: Octet, b3: Octet): Word {
    (b0 as bv32) * 0x1000000 + (b1 as bv32) * 0x10000 + (b2 as bv32) * 0x100 + (b3 as bv32)
  }

  /** Message schedule word t of one 64-octet block. */
  function W(block: seq<Octet>, t: nat): Word
    requires |block| == 64 && t < 64
  {
    if t < 16 then
      BigEndianWord(block[4 * t], block[4 * t + 1], block[4 * t + 2], block[4 * t + 3])
    else
      Add(Add(Add(SmallSigma1(W(block, t - 2)), W(block, t - 7)), SmallSigma0(W(block, t - 15))), W(block, t - 16))
  }

  function Round(v: Vars, k: Word, w: Word): Vars {
    var t1 := Add(Add(Add(Add(v.h, BigSigma1(v.e)), Ch(v.e, v.f, v.g)), k), w);
    var t2 := Add(BigSigma0(v.a), Maj(v.a, v.b, v.c));
    Vars(Add(t1, t2), v.a, v.b, v.c, Add(v.d, t1), v.e, v.f, v.g)
  }

  /** The working variables after the first t of the 64 rounds. */
  function Rounds(block: seq<Octet>, v: Vars, t: nat): Vars
    requires |block| == 64 && t <= 64
  {
    if t == 0 then v else Round(Rounds(block, v, t - 1), K[t - 1], W(block, t - 1))
  }

  function AddVars(h: Vars, v: Vars): Vars {
    Vars(Add(h.a, v.a), Add(h.b, v.b), Add(h.c, v.c), Add(h.d, v.d),
         Add(h.e, v.e), Add(h.f, v.f), Add(h.g, v.g), Add(h.h, v.h))
  }

  function Compress(h: Vars, block: seq<Octet>): Vars
    requires |block| == 64
  {
    AddVars(h, Rounds(block, h, 64))
  }

  /** Section 6.2.2 over a padded message, block by block from the front. */
  function HashBlocks(h: Vars, padded: seq<Octet>): Vars
    requires |padded| % 64 == 0
    decreases |padded|
  {
    if padded == [] then h else HashBlocks(Compress(h, padded[..64]), padded[64..])
  }

  function LowOctet(n: nat): Octet { WordSums.OctetOf(n % 256) }

  /** The number n as k octets, most significant octet first. */
  function BigEndian(n: nat, k: nat): (r: seq<Octet>)
    ensures |r| == k
  {
    if k == 0 then [] else BigEndian(n / 256, k - 1) + [LowOctet(n)]
  }

  /** The k-octet field holds its number modulo 256^k: a 64-bit length wraps. */
  lemma {:induction false} BigEndianWraps(n: nat, k: nat)
    ensures BigEndian(n % Pow256(k), k) == BigEndian(n, k)
  {
    if k > 0 {
      SplitLastOctet(n, Pow256(k - 1));
      assert LowOctet(n % Pow256(k)) == LowOctet(n);
      BigEndianWraps(n / 256, k - 1);
    }
  }

  function Zeros(n: nat): (r: seq<Octet>)
    ensures |r| == n
  {
    seq(n, _ => 0)
  }

  /** How many zero octets stand between 0x80 and the length field. */
  function ZeroOctets(len: nat): nat { (55 - len) % 64 }

  lemma PaddedLength(len: nat)
    ensures (len + 9 + ZeroOctets(len)) % 64 == 0
  {
    var q, r := len / 64, len % 64;
    assert ZeroOctets(len) == (55 - r) % 64;
  }

  function Pad(m: seq<Octet>): (p: seq<Octet>)
    ensures |p| % 64 == 0
  {
    hide LowOctet, ZeroOctets;
    PaddedLength(|m|);
    m + [0x80] + Zeros(ZeroOctets(|m|)) + BigEndian(8 * |m|, 8)
  }

  function WordOctets(w: Word): seq<Octet> {
    [((w >> 24) & 0xff) as bv8, ((w >> 16) & 0xff) as bv8, ((w >> 8) & 0xff) as bv8, (w & 0xff) as bv8]
  }

  function DigestOctets(v: Vars): (r: seq<Octet>)
    ensures |r| == 32
  {
    WordOctets(v.a) + WordOctets(v.b) + WordOctets(v.c) + WordOctets(v.d) +
    WordOctets(v.e) + WordOctets(v.f) + WordOctets(v.g) + WordOctets(v.h)
  }

  function Sha256(m: seq<Octet>): (r: seq<Octet>)
    ensures |r| == 32
  {
    DigestOctets(HashBlocks(H0, Pad(m)))
  }

  /** The condition section 5.1.1 puts on k for a message of len octets. */
  predicate PadsTo448(len: nat, k: nat) { (8 * len + 1 + k) % 512 == 448 }

  /**
   Section 5.1.1 counts bits: one 1 bit, then the least k >= 0 zero bits that
   bring the length to 448 (mod 512). The octet 0x80 carries the 1 bit and
   seven of those zero bits.
   */
  lemma PaddingIsLeast(len: nat)
    ensures PadsTo448(len, 7 + 8 * ZeroOctets(len))
    ensures forall k: nat | PadsTo448(len, k) :: 7 + 8 * ZeroOctets(len) <= k
  {
    assert 7 + 8 * ZeroOctets(len) < 512;
    forall k: nat | PadsTo448(len, k)
      ensures 7 + 8 * ZeroOctets(len) <= k
    {
    }
  }

  /** Hashing a further block after whole blocks compresses it into what they gave. */
  lemma {:induction false} HashBlocksAppend(h: Vars, m: seq<Octet>, block: seq<Octet>)
    requires |m| % 64 == 0 && |block| == 64
    ensures HashBlocks(h, m + block) == Compress(HashBlocks(h, m), block)
    decreases |m|
  {
    if m == [] {
      assert m + block == block && block[..64] == block && block[64..] == [];
    } else {
      assert (m + block)[..64] == m[..64];
      assert (m + block)[64..] == m[64..] + block;
      HashBlocksAppend(Compress(h, m[..64]), m[64..], block);
    }
  }
}
