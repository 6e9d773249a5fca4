/** The streaming implementation of Projet/Hash/sha256.c, proved equal to FIPS 180-4. */
module Sha256 {
  import opened Arithmetic
  import opened Bytes
  import opened Fips180

  const U32_LIMIT := 0x1_0000_0000

  // The macros EP0, EP1, SIG0 and SIG1, with ROTRIGHT written as two shifts.
  function Ep0(x: Word): Word {
    ((x >> 2) | (x << 30)) ^ ((x >> 13) | (x << 19)) ^ ((x >> 22) | (x << 10))
  }
  function Ep1(x: Word): Word {
    ((x >> 6) | (x << 26)) ^ ((x >> 11) | (x << 21)) ^ ((x >> 25) | (x << 7))
  }
  function Sig0(x: Word): Word {
    ((x >> 7) | (x << 25)) ^ ((x >> 18) | (x << 14)) ^ (x >> 3)
  }
  function Sig1(x: Word): Word {
    ((x >> 17) | (x << 15)) ^ ((x >> 19) | (x << 13)) ^ (x >> 10)
  }

  lemma MacrosAreFips(x: Word)
    ensures Ep0(x) == BigSigma0(x) && Ep1(x) == BigSigma1(x)
    ensures Sig0(x) == SmallSigma0(x) && Sig1(x) == SmallSigma1(x)
  {
  }

  /** The table k of the C code. */
  const ROUND_WORDS: seq<Word> :=
    [0x428a2f98, 0x71374491, 0xb5c0fbcf, 0xe9b5dba5, 0x3956c25b, 0x59f111f1, 0x923f82a4, 0xab1c5ed5] +
    [0xd807aa98, 0x12835b01, 0x243185be, 0x550c7dc3, 0x72be5d74, 0x80deb1fe, 0x9bdc06a7, 0xc19bf174] +
    [0xe49b69c1, 0xefbe4786, 0x0fc19dc6, 0x240ca1cc, 0x2de92c6f, 0x4a7484aa, 0x5cb0a9dc, 0x76f988da] +
    [0x983e5152, 0xa831c66d, 0xb00327c8, 0xbf597fc7, 0xc6e00bf3, 0xd5a79147, 0x06ca6351, 0x14292967] +
    [0x27b70a85, 0x2e1b2138, 0x4d2c6dfc, 0x53380d13, 0x650a7354, 0x766a0abb, 0x81c2c92e, 0x92722c85] +
    [0xa2bfe8a1, 0xa81a664b, 0xc24b8b70, 0xc76c51a3, 0xd192e819, 0xd6990624, 0xf40e3585, 0x106aa070] +
    [0x19a4c116, 0x1e376c08, 0x2748774c, 0x34b0bcb5, 0x391c0cb3, 0x4ed8aa4a, 0x5b9cca4f, 0x682e6ff3] +
    [0x748f82ee, 0x78a5636f, 0x84c87814, 0x8cc70208, 0x90befffa, 0xa4506ceb, 0xbef9a3f7, 0xc67178f2]

  /** The table is that of section 4.2.2. */
  lemma TableIsFips(t: nat)
    requires t < 64
    ensures |ROUND_WORDS| == 64 && ROUND_WORDS[t] == K[t]
  {
  }

  function StateVars(s: seq<Word>): Vars
    requires |s| == 8
  {
    Vars(s[0], s[1], s[2], s[3], s[4], s[5], s[6], s[7])
  }

  /** How many octets of a message of n octets have gone through whole blocks. */
  function Absorbed(n: nat): (r: nat)
    ensures r <= n < r + 64 && r % 64 == 0
  {
    n - n % 64
  }

  /** SHA256_CTXX, with the octets it has been fed so far as a ghost field. */
  class Context {
    const data: array<Octet>
    const state: array<Word>
    var datalen: nat
    var bitlen: nat
    ghost var message: seq<Octet>

    ghost predicate Valid()
      reads this, data, state
    {
      && data.Length == 64 && state.Length == 8
      && datalen == |message| % 64
      && bitlen == (8 * Absorbed(|message|)) % U64_LIMIT
      && data[..datalen] == message[Absorbed(|message|)..]
      && StateVars(state[..]) == HashBlocks(H0, message[..Absorbed(|message|)])
    }

    // sha256_init
    constructor ()
      ensures Valid() && message == []
      ensures fresh(data) && fresh(state)
    {
      data := new Octet[64];
      state := new Word[] [0x6a09e667, 0xbb67ae85, 0x3c6ef372, 0xa54ff53a,
                           0x510e527f, 0x9b05688c, 0x1f83d9ab, 0x5be0cd19];
      datalen := 0;
      bitlen := 0;
      message := [];
    }

    // sha256_transform on the context's own buffer
    method Transform()
      requires data.Length == 64 && state.Length == 8
      modifies state
      ensures StateVars(state[..]) == Compress(StateVars(old(state[..])), data[..])
    {
      hide Add, Ep0, Ep1, Ch, Maj, W, Rounds, AddVars;
      ghost var block := data[..];
      var m := Schedule();
      assert data[..] == block;
      assert forall t | 0 <= t < 64 :: m[t] == W(block, t);
      ghost var start := StateVars(state[..]);
      RoundStep(block, start, 0);
      var a, b, c, d := state[0], state[1], state[2], state[3];
      var e, f, g, h := state[4], state[5], state[6], state[7];
      for i := 0 to 64
        invariant Vars(a, b, c, d, e, f, g, h) == Rounds(block, start, i)
        invariant forall t | 0 <= t < 64 :: m[t] == W(block, t)
        invariant data[..] == block && StateVars(state[..]) == start
      {
        RoundStep(block, start, i);
        TableIsFips(i);
        var t1 := Add(Add(Add(Add(h, Ep1(e)), Ch(e, f, g)), ROUND_WORDS[i]), m[i]);
        var t2 := Add(Ep0(a), Maj(a, b, c));
        h := g;
        g := f;
        f := e;
        e := Add(d, t1);
        d := c;
        c := b;
        b := a;
        a := Add(t1, t2);
      }
      AddToState(Vars(a, b, c, d, e, f, g, h));
      assert data[..] == block;
    }

    // the eight += of sha256_transform
    method AddToState(v: Vars)
      requires state.Length == 8
      modifies state
      ensures StateVars(state[..]) == AddVars(StateVars(old(state[..])), v)
    {
      hide Add;
      state[0] := Add(state[0], v.a);
      state[1] := Add(state[1], v.b);
      state[2] := Add(state[2], v.c);
      state[3] := Add(state[3], v.d);
      state[4] := Add(state[4], v.e);
      state[5] := Add(state[5], v.f);
      state[6] := Add(state[6], v.g);
      state[7] := Add(state[7], v.h);
    }

    // the two loops of sha256_transform that fill m
    method Schedule() returns (m: array<Word>)
      requires data.Length == 64
      ensures fresh(m) && m.Length == 64
      ensures forall t | 0 <= t < 64 :: m[t] == W(data[..], t)
    {
      hide *;
      m := new Word[64];
      for i := 0 to 16
        invariant forall t | 0 <= t < i :: m[t] == W(data[..], t)
      {
        ScheduleStart(data[..], i);
        var j := 4 * i;
        m[i] := BytesToWord(data[j], data[j + 1], data[j + 2], data[j + 3]);
      }
      for i := 16 to 64
        invariant forall t | 0 <= t < i :: m[t] == W(data[..], t)
      {
        ScheduleStep(data[..], i);
        m[i] := Add(Add(Add(Sig1(m[i - 2]), m[i - 7]), Sig0(m[i - 15])), m[i - 16]);
      }
    }

    // sha256_update: a 32-bit counter walks the input, so it must be shorter than 2^32
    method Update(input: seq<Octet>)
      requires Valid() && |input| < U32_LIMIT
      modifies this, data, state
      ensures Valid() && message == old(message) + input
    {
      hide *;
      for i := 0 to |input|
        invariant Valid() && message == old(message) + input[..i]
      {
        Feed(input[i]);
        assert input[..i + 1] == input[..i] + [input[i]];
      }
      assert input[..|input|] == input;
    }

    // one iteration of sha256_update's loop
    method Feed(octet: Octet)
      requires Valid()
      modifies this, data, state
      ensures Valid() && message == old(message) + [octet]
    {
      hide HashBlocks, Compress, H0, Absorbed;
      ghost var whole := Absorbed(|message|);
      AbsorbedStep(|message|);
      data[datalen] := octet;
      datalen := datalen + 1;
      message := message + [octet];
      assert data[..datalen] == message[whole..];
      assert message[..whole] == old(message)[..whole];
      if datalen == 64 {
        FlushBlock(whole);
      }
    }

    // the branch of sha256_update that a full buffer takes
    method FlushBlock(ghost whole: nat)
      requires data.Length == 64 && state.Length == 8 && datalen == 64
      requires whole % 64 == 0 && |message| == whole + 64 && data[..] == message[whole..]
      requires bitlen == (8 * whole) % U64_LIMIT
      requires StateVars(state[..]) == HashBlocks(H0, message[..whole])
      modifies this`bitlen, this`datalen, state
      ensures Valid()
    {
      hide HashBlocks, Compress, H0, Absorbed;
      WholeIsAbsorbed(|message|);
      CountBlock(bitlen, whole);
      Transform();
      HashBlocksAppend(H0, message[..whole], message[whole..]);
      assert message[..whole] + message[whole..] == message == message[..|message|];
      bitlen := (bitlen + 512) % U64_LIMIT;
      datalen := 0;
    }

    // sha256_final
    method Final() returns (digest: array<Octet>)
      requires Valid()
      modifies this, data, state
      ensures fresh(digest) && digest[..] == Fips180.Sha256(message) && message == old(message)
    {
      hide HashBlocks, Compress, Pad, H0, BigEndian, DigestOctets;
      ghost var before;
      if datalen < 56 {
        before := PadOneBlock();
      } else {
        before := PadTwoBlocks();
      }
      AppendLength(before);
      digest := new Octet[32];
      WriteDigest(digest);
    }

    // the branch of sha256_final in which the length still fits: before is what has been hashed
    method PadOneBlock() returns (ghost before: seq<Octet>)
      requires Valid() && datalen < 56
      modifies data
      ensures |before| % 64 == 0 && StateVars(state[..]) == HashBlocks(H0, before)
      ensures before + data[..56] == message + [0x80] + Zeros(ZeroOctets(|message|))
    {
      hide HashBlocks, Compress, H0, Zeros, ZeroOctets;
      ZeroOctetsOf(|message|);
      ghost var tail := message[Absorbed(|message|)..];
      before := message[..Absorbed(|message|)];
      var i := datalen;
      data[i] := 0x80;
      i := i + 1;
      assert data[..i] == tail + [0x80];
      ZeroFill(i, 56);
      Splice(before, tail, message, data[..56], 56 - i);
    }

    /** What has gone through whole blocks, and what is in the buffer. */
    ghost function Whole(): seq<Octet>
      reads this
    {
      message[..Absorbed(|message|)]
    }

    ghost function Tail(): seq<Octet>
      reads this
    {
      message[Absorbed(|message|)..]
    }

    lemma Parts()
      requires Valid()
      ensures data.Length == 64 && state.Length == 8 && datalen == |message| % 64 == |Tail()| && data[..datalen] == Tail()
      ensures |Whole()| % 64 == 0 && Whole() + Tail() == message && StateVars(state[..]) == HashBlocks(H0, Whole())
    {
    }

    // the other branch, which needs a further block
    method PadTwoBlocks() returns (ghost before: seq<Octet>)
      requires Valid() && datalen >= 56
      modifies data, state
      ensures |before| % 64 == 0 && StateVars(state[..]) == HashBlocks(H0, before)
      ensures before + data[..56] == message + [0x80] + Zeros(ZeroOctets(|message|))
    {
      hide HashBlocks, Compress, H0, ZeroOctets, Zeros, StateVars, Valid, Whole, Tail;
      Parts();
      ghost var whole, tail := Whole(), Tail();
      FillBlock(tail);
      ghost var first := data[..];
      Transform();
      HashBlocksAppend(H0, whole, first);
      before := whole + first;
      ClearFront();
      SpliceTwo(whole, tail, message, first, data[..56], 63 - datalen);
    }

    // the memset of sha256_final
    method ClearFront()
      requires data.Length == 64
      modifies data
      ensures data[..56] == Zeros(56)
    {
      ZeroFill(0, 56);
    }

    // 0x80 and zeros up to the end of the buffer
    method FillBlock(ghost tail: seq<Octet>)
      requires data.Length == 64 && datalen < 64 && data[..datalen] == tail
      modifies data
      ensures data[..] == tail + [0x80] + Zeros(63 - datalen)
    {
      hide Zeros;
      var i := datalen;
      data[i] := 0x80;
      i := i + 1;
      assert data[..i] == tail + [0x80];
      ZeroFill(i, 64);
    }

    // the length field and the last call of sha256_transform
    method AppendLength(ghost before: seq<Octet>)
      requires data.Length == 64 && state.Length == 8
      requires datalen == |message| % 64 && bitlen == (8 * Absorbed(|message|)) % U64_LIMIT
      requires |before| % 64 == 0 && StateVars(state[..]) == HashBlocks(H0, before)
      requires before + data[..56] == message + [0x80] + Zeros(ZeroOctets(|message|))
      modifies this`bitlen, data, state
      ensures StateVars(state[..]) == HashBlocks(H0, Pad(message))
    {
      hide HashBlocks, Compress, Pad, H0, Zeros, ZeroOctets, BigEndian, Absorbed;
      ghost var start := data[..56];
      CountBits(bitlen, |message|);
      bitlen := (bitlen + 8 * datalen) % U64_LIMIT;
      StoreLength();
      ghost var block := data[..];
      assert block == start + BigEndian(bitlen, 8);
      PadIs(message, before, start, bitlen);
      HashBlocksAppend(H0, before, block);
      Transform();
    }

    method ZeroFill(from: nat, to: nat)
      requires data.Length == 64 && from <= to <= 64
      modifies data
      ensures data[..] == old(data[..from]) + Zeros(to - from) + old(data[to..])
    {
      var i := from;
      while i < to
        invariant from <= i <= to
        invariant data[..] == old(data[..from]) + Zeros(i - from) + old(data[i..])
      {
        data[i] := 0x00;
        i := i + 1;
      }
    }

    method StoreLength()
      requires data.Length == 64 && bitlen < U64_LIMIT
      modifies data
      ensures data[..56] == old(data[..56])
      ensures data[56..] == BigEndian(bitlen, 8)
    {
      hide Shr8, BigEndian, LowOctet;
      data[63] := LowOctet(Shr8(bitlen, 0));
      data[62] := LowOctet(Shr8(bitlen, 1));
      data[61] := LowOctet(Shr8(bitlen, 2));
      data[60] := LowOctet(Shr8(bitlen, 3));
      data[59] := LowOctet(Shr8(bitlen, 4));
      data[58] := LowOctet(Shr8(bitlen, 5));
      data[57] := LowOctet(Shr8(bitlen, 6));
      data[56] := LowOctet(Shr8(bitlen, 7));
      assert forall p | 0 <= p < 56 :: data[p] == old(data[p]);
      LengthField(data[..], bitlen);
    }

    method WriteDigest(digest: array<Octet>)
      requires state.Length == 8 && digest.Length == 32
      modifies digest
      ensures digest[..] == DigestOctets(StateVars(state[..]))
    {
      hide OctetOf, DigestOctets;
      ghost var words := state[..];
      for i := 0 to 4
        invariant state[..] == words
        invariant forall j | 0 <= j < i :: Column(digest[..], words, j)
      {
        ghost var was := digest[..];
        WriteColumn(digest, i);
        forall j | 0 <= j < i
          ensures Column(digest[..], words, j)
        {
          assert Column(was, words, j);
        }
      }
      ColumnsMakeDigest(digest[..], words);
    }

    // the body of sha256_final's last loop
    method WriteColumn(digest: array<Octet>, i: nat)
      requires state.Length == 8 && digest.Length == 32 && i < 4
      modifies digest
      ensures Column(digest[..], state[..], i)
      ensures forall p | 0 <= p < 32 && p % 4 != i :: digest[p] == old(digest[p])
    {
      hide OctetOf;
      digest[i] := OctetOf(state[0], i);
      digest[i + 4] := OctetOf(state[1], i);
      digest[i + 8] := OctetOf(state[2], i);
      digest[i + 12] := OctetOf(state[3], i);
      digest[i + 16] := OctetOf(state[4], i);
      digest[i + 20] := OctetOf(state[5], i);
      digest[i + 24] := OctetOf(state[6], i);
      digest[i + 28] := OctetOf(state[7], i);
    }
  }

  /** Octet i of every state word stands at its place in the digest. */
  ghost predicate Column(digest: seq<Octet>, state: seq<Word>, i: nat)
    requires |digest| == 32 && |state| == 8 && i < 4
  {
    && digest[i] == OctetOf(state[0], i) && digest[i + 4] == OctetOf(state[1], i)
    && digest[i + 8] == OctetOf(state[2], i) && digest[i + 12] == OctetOf(state[3], i)
    && digest[i + 16] == OctetOf(state[4], i) && digest[i + 20] == OctetOf(state[5], i)
    && digest[i + 24] == OctetOf(state[6], i) && digest[i + 28] == OctetOf(state[7], i)
  }

  /** The expression (w >> (24 - i * 8)) & 0xff of sha256_final, i running from 0 to 3. */
  function OctetOf(w: Word, i: nat): Octet
    requires i < 4
  {
    if i == 0 then ((w >> 24) & 0xff) as bv8
    else if i == 1 then ((w >> 16) & 0xff) as bv8
    else if i == 2 then ((w >> 8) & 0xff) as bv8
    else (w & 0xff) as bv8
  }

  function BytesToWord(b0: Octet, b1: Octet, b2: Octet, b3: Octet): (w: Word)
    ensures w == BigEndianWord(b0, b1, b2, b3)
  {
    ((b0 as bv32) << 24) | ((b1 as bv32) << 16) | ((b2 as bv32) << 8) | (b3 as bv32)
  }

  lemma ScheduleStart(block: seq<Octet>, t: nat)
    requires |block| == 64 && t < 16
    ensures W(block, t) == BytesToWord(block[4 * t], block[4 * t + 1], block[4 * t + 2], block[4 * t + 3])
  {
  }

  lemma ScheduleStep(block: seq<Octet>, t: nat)
    requires |block| == 64 && 16 <= t < 64
    ensures W(block, t) == Add(Add(Add(Sig1(W(block, t - 2)), W(block, t - 7)), Sig0(W(block, t - 15))), W(block, t - 16))
  {
    MacrosAreFips(W(block, t - 2));
    MacrosAreFips(W(block, t - 15));
  }

  /** One iteration of the round loop, in the macros of the C code, is one round of FIPS 180-4. */
  lemma RoundStep(block: seq<Octet>, start: Vars, t: nat)
    requires |block| == 64 && t < 64
    ensures Rounds(block, start, 0) == start
    ensures var v := Rounds(block, start, t);
            var t1 := Add(Add(Add(Add(v.h, Ep1(v.e)), Ch(v.e, v.f, v.g)), K[t]), W(block, t));
            var t2 := Add(Ep0(v.a), Maj(v.a, v.b, v.c));
            Rounds(block, start, t + 1) == Vars(Add(t1, t2), v.a, v.b, v.c, Add(v.d, t1), v.e, v.f, v.g)
  {
    var v := Rounds(block, start, t);
    MacrosAreFips(v.e);
    MacrosAreFips(v.a);
    assert Rounds(block, start, t + 1) == Round(v, K[t], W(block, t));
  }

  /** The C expression n >> (8 * j). */
  function Shr8(n: nat, j: nat): nat {
    if j == 0 then n else Shr8(n / 256, j - 1)
  }

  lemma {:induction false} BigEndianAt(n: nat, k: nat, j: nat)
    requires j < k
    ensures BigEndian(n, k)[k - 1 - j] == LowOctet(Shr8(n, j))
  {
    if j > 0 {
      BigEndianAt(n / 256, k - 1, j - 1);
    }
  }

  lemma LengthField(data: seq<Octet>, n: nat)
    requires |data| == 64
    requires data[63] == LowOctet(Shr8(n, 0)) && data[62] == LowOctet(Shr8(n, 1))
    requires data[61] == LowOctet(Shr8(n, 2)) && data[60] == LowOctet(Shr8(n, 3))
    requires data[59] == LowOctet(Shr8(n, 4)) && data[58] == LowOctet(Shr8(n, 5))
    requires data[57] == LowOctet(Shr8(n, 6)) && data[56] == LowOctet(Shr8(n, 7))
    ensures data[56..] == BigEndian(n, 8)
  {
    hide Shr8, BigEndian, LowOctet;
    forall i | 0 <= i < 8
      ensures data[56 + i] == BigEndian(n, 8)[i]
    {
      BigEndianAt(n, 8, 7 - i);
    }
  }

  lemma ColumnsMakeDigest(digest: seq<Octet>, state: seq<Word>)
    requires |digest| == 32 && |state| == 8
    requires forall j | 0 <= j < 4 :: Column(digest, state, j)
    ensures digest == DigestOctets(StateVars(state))
  {
    hide OctetOf, WordOctets;
    assert Column(digest, state, 0) && Column(digest, state, 1) && Column(digest, state, 2) && Column(digest, state, 3);
    OctetsOfWord(state[0]);
    assert digest[..4] == WordOctets(state[0]);
    GlueWord(digest, state[1], 4);
    GlueWord(digest, state[2], 8);
    GlueWord(digest, state[3], 12);
    GlueWord(digest, state[4], 16);
    GlueWord(digest, state[5], 20);
    GlueWord(digest, state[6], 24);
    GlueWord(digest, state[7], 28);
    assert digest[..32] == digest;
  }

  lemma GlueWord(digest: seq<Octet>, w: Word, k: nat)
    requires k + 4 <= |digest|
    requires digest[k] == OctetOf(w, 0) && digest[k + 1] == OctetOf(w, 1)
    requires digest[k + 2] == OctetOf(w, 2) && digest[k + 3] == OctetOf(w, 3)
    ensures digest[..k + 4] == digest[..k] + WordOctets(w)
  {
    OctetsOfWord(w);
  }

  lemma OctetsOfWord(w: Word)
    ensures WordOctets(w) == [OctetOf(w, 0), OctetOf(w, 1), OctetOf(w, 2), OctetOf(w, 3)]
  {
  }

  lemma PadIs(m: seq<Octet>, before: seq<Octet>, start: seq<Octet>, bits: nat)
    requires before + start == m + [0x80] + Zeros(ZeroOctets(|m|))
    requires bits == 8 * |m| % U64_LIMIT
    ensures before + (start + BigEndian(bits, 8)) == Pad(m)
  {
    hide BigEndian;
    Pow256Of8();
    BigEndianWraps(8 * |m|, 8);
    assert before + (start + BigEndian(bits, 8)) == before + start + BigEndian(bits, 8);
  }

  lemma Splice(before: seq<Octet>, tail: seq<Octet>, m: seq<Octet>, end: seq<Octet>, zeros: nat)
    requires before + tail == m && end == tail + [0x80] + Zeros(zeros)
    ensures before + end == m + [0x80] + Zeros(zeros)
  {
  }

  lemma ZeroOctetsOf(len: nat)
    ensures ZeroOctets(len) == if len % 64 < 56 then 55 - len % 64 else 119 - len % 64
  {
  }

  lemma ZerosJoin(a: nat, b: nat)
    ensures Zeros(a) + Zeros(b) == Zeros(a + b)
  {
  }

  lemma SpliceTwo(whole: seq<Octet>, tail: seq<Octet>, m: seq<Octet>, first: seq<Octet>, end: seq<Octet>, zeros: nat)
    requires whole + tail == m && |tail| == |m| % 64 && zeros == 63 - |tail| && zeros < 8
    requires first == tail + [0x80] + Zeros(zeros) && end == Zeros(56)
    ensures whole + first + end == m + [0x80] + Zeros(ZeroOctets(|m|))
  {
    ZeroOctetsOf(|m|);
    ZerosJoin(zeros, 56);
    assert first + end == tail + [0x80] + (Zeros(zeros) + Zeros(56));
    Splice(whole, tail, m, first + end, zeros + 56);
    assert whole + first + end == whole + (first + end);
  }

  function Flatten(parts: seq<seq<Octet>>): seq<Octet> {
    if parts == [] then [] else Flatten(parts[..|parts| - 1]) + parts[|parts| - 1]
  }

  /** However a message is cut into calls of sha256_update, the digest is that of the whole. */
  method HashParts(parts: seq<seq<Octet>>) returns (digest: array<Octet>)
    requires forall i | 0 <= i < |parts| :: |parts[i]| < U32_LIMIT
    ensures digest[..] == Fips180.Sha256(Flatten(parts))
  {
    var ctx := new Context();
    for i := 0 to |parts|
      invariant ctx.Valid() && fresh(ctx) && fresh(ctx.data) && fresh(ctx.state)
      invariant ctx.message == Flatten(parts[..i])
    {
      ctx.Update(parts[i]);
      assert parts[..i + 1][..i] == parts[..i];
    }
    assert parts[..|parts|] == parts;
    digest := ctx.Final();
  }

  lemma AbsorbedStep(n: nat)
    ensures Absorbed(n + 1) == if n % 64 == 63 then n + 1 else Absorbed(n)
    ensures (n + 1) % 64 == if n % 64 == 63 then 0 else n % 64 + 1
    ensures n == Absorbed(n) + n % 64
  {
  }

  lemma WholeIsAbsorbed(n: nat)
    requires n % 64 == 0
    ensures Absorbed(n) == n
  {
  }

  lemma CountBlock(bits: nat, whole: nat)
    requires bits == (8 * whole) % U64_LIMIT
    ensures (bits + 512) % U64_LIMIT == (8 * (whole + 64)) % U64_LIMIT
  {
  }

  lemma CountBits(bits: nat, n: nat)
    requires bits == (8 * Absorbed(n)) % U64_LIMIT
    ensures (bits + 8 * (n % 64)) % U64_LIMIT == (8 * n) % U64_LIMIT
  {
  }
}
