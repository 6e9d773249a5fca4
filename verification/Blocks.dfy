/** Blocks and the two strings that are hashed for one block. The hash is a parameter. */
module Blocks {
  import opened Buffers
  import opened Bytes
  import opened Decimal
  import opened Difficulty
  import opened Transactions

  /** sha256 reads a C string and fills a digest. */
  type Hash = CString -> Digest

  datatype Block = Block(previusHash: Digest, tl: seq<Transaction>, blockHash: Digest, proof: U64, time: Time)

  // getMerkleHash
  function MerkleHash(H: Hash, b: Block): Digest {
    H(TlText(b.tl))
  }

  /** What is left of "%llu" of the proof: its len_of_proof first characters, none when it is 0. */
  function ProofText(proof: U64): CString {
    if proof == 0 then [] else Dec(proof)
  }

  /** What is left of "%011llu" of the time once the next field is copied 11 characters on. */
  function TimeText(time: Time): (s: CString)
    ensures |s| == 11
  {
    PadDec(11, ToU64(time))[..11]
  }

  /** The string that getHash hashes. */
  function Preimage(H: Hash, b: Block): CString {
    ProofText(b.proof) + TimeText(b.time) + Hex(b.previusHash) + Hex(MerkleHash(H, b))
  }

  function BlockHash(H: Hash, b: Block): Digest {
    H(Preimage(H, b))
  }

  // getHash: each field is written over what the one before it spilled past its place
  method GetHash(H: Hash, b: Block) returns (hash: Digest)
    ensures hash == BlockHash(H, b)
  {
    hide Hex, TlText;
    var proofSize := LenOfProof(b.proof);
    var buf := new Byte[4 * 32 + proofSize + 1 + 11];
    var merkleText := TlToString(b.tl);
    var merkleHash := H(merkleText);
    var var1 := ToAscii(b.previusHash);
    var var2 := ToAscii(merkleHash);
    PrintNumbers(buf, b, proofSize);
    var offset := proofSize + 11;
    Memcpy(buf, offset, var1[..]);
    offset := offset + 64;
    assert buf[..offset] == ProofText(b.proof) + TimeText(b.time) + Hex(b.previusHash);
    Memcpy(buf, offset, var2[..]);
    offset := offset + 64;
    buf[offset] := 0;
    assert buf[..offset] == Preimage(H, b);
    hash := H(buf[..offset]);
  }

  // the two calls of sprintf in getHash
  method PrintNumbers(buf: array<Byte>, b: Block, proofSize: nat)
    requires proofSize == ProofLength(b.proof) && buf.Length == 4 * 32 + proofSize + 1 + 11
    modifies buf
    ensures buf[..proofSize + 11] == ProofText(b.proof) + TimeText(b.time)
  {
    DecOfU64(b.proof);
    DecOfU64(ToU64(b.time));
    Sprintf(buf, 0, Dec(b.proof));
    assert buf[..proofSize] == ProofText(b.proof);
    var time := PadDec(11, ToU64(b.time));
    Sprintf(buf, proofSize, time);
    FrontOfWritten(buf[..], proofSize, time, 11);
  }

  /** The first n characters of a string written at an offset, behind what stands before it. */
  lemma FrontOfWritten(buf: seq<Byte>, offset: nat, s: seq<Byte>, n: nat)
    requires n <= |s| && offset + |s| <= |buf| && buf[offset..offset + |s|] == s
    ensures buf[..offset + n] == buf[..offset] + s[..n]
  {
    assert buf[offset..offset + n] == buf[offset..offset + |s|][..n];
  }

  lemma DecOfU64(n: U64)
    ensures |Dec(n)| <= 20
  {
    assert Pow10(5) == 100_000;
    assert Pow10(10) == 10_000_000_000;
    assert Pow10(15) == 1_000_000_000_000_000;
    assert Pow10(20) == 100_000_000_000_000_000_000;
    DecLength(n, 20);
  }

  /** Where the fields stand in what getHash hashes, counted from the end. */
  lemma PreimageFields(H: Hash, b: Block)
    ensures var text := Preimage(H, b);
            var n := |text| - 139;
            && n >= 0 && (b.proof == 0 <==> n == 0) && Value(text[..n]) == b.proof && (n > 0 ==> text[0] != ZERO)
            && (TimeFits(b.time) ==> Value(text[n..n + 11]) == b.time)
            && text[n + 11..n + 75] == Hex(b.previusHash) && text[n + 75..] == Hex(H(TlText(b.tl)))
  {
    hide Value, Hex, TlText, Pow10, TimeFits, Dec;
    var text, n := Preimage(H, b), |ProofText(b.proof)|;
    assert text[..n] == ProofText(b.proof) && text[n..n + 11] == TimeText(b.time);
    assert text[n + 11..n + 75] == Hex(b.previusHash) && text[n + 75..] == Hex(H(TlText(b.tl)));
    if TimeFits(b.time) {
      TimeTextReads(b.time);
    }
    ProofTextReads(b.proof);
  }

  lemma ProofTextReads(proof: U64)
    ensures Value(ProofText(proof)) == proof && (proof == 0 <==> ProofText(proof) == [])
    ensures proof > 0 ==> ProofText(proof)[0] != ZERO
  {
    ValueOfDec(proof);
    NoLeadingZero(proof);
  }

  lemma TimeTextReads(time: Time)
    requires TimeFits(time)
    ensures Value(TimeText(time)) == time
  {
    TimeTextWhole(time);
    ValueOfPadDec(11, time);
  }

  /** What the miner appends to a nonce: "%011llu%s%s" of the time and the two hashes. */
  function MinerSum(time: Time, previusHash: Digest, merkleHash: Digest): CString {
    PadDec(11, ToU64(time)) + Hex(previusHash) + Hex(merkleHash)
  }

  /** The string hashed for a nonce by thread_mining and testproof: "%llu%s". */
  function MinerText(proof: U64, sum: CString): CString {
    Dec(proof) + sum
  }

  /** The text tested for a nonce is its decimal digits, at least 11 of the time, and the two hashes. */
  lemma MinerTextFields(proof: U64, time: Time, previusHash: Digest, merkleHash: Digest)
    ensures var sum := MinerSum(time, previusHash, merkleHash);
            var text := MinerText(proof, sum);
            var n, m := |text| - |sum|, |sum| - 128;
            && n > 0 && Value(text[..n]) == proof && text[n..] == sum && (proof > 0 ==> text[0] != ZERO)
            && m >= 11 && Value(sum[..m]) == ToU64(time) && (m == 11 <==> ToU64(time) < Pow10(11))
            && sum[m..m + 64] == Hex(previusHash) && sum[m + 64..] == Hex(merkleHash)
  {
    hide Value, Hex, Pow10, Dec, PadDec;
    var sum := MinerSum(time, previusHash, merkleHash);
    var text := MinerText(proof, sum);
    var n, m := |Dec(proof)|, |PadDec(11, ToU64(time))|;
    ValueOfDec(proof);
    NoLeadingZero(proof);
    ValueOfPadDec(11, ToU64(time));
    PadDecLength(11, ToU64(time));
    assert text[..n] == Dec(proof) && text[n..] == sum;
    assert sum[..m] == PadDec(11, ToU64(time));
    assert sum[m..m + 64] == Hex(previusHash) && sum[m + 64..] == Hex(merkleHash);
  }

  /**
   The string the miner tested is the one getHash hashes exactly when the proof is
   positive (a proof of 0 is hashed as "0" but dropped by len_of_proof) and the
   time takes no more than 11 digits.
   */
  lemma MinedTextIsPreimage(H: Hash, b: Block)
    ensures MinerText(b.proof, MinerSum(b.time, b.previusHash, MerkleHash(H, b))) == Preimage(H, b)
       <==> 0 < b.proof && ToU64(b.time) < Pow10(11)
  {
    hide *;
    TextLengths(H, b);
    if 0 < b.proof && ToU64(b.time) < Pow10(11) {
      TextsMeet(H, b);
    }
  }

  lemma TextLengths(H: Hash, b: Block)
    ensures var mined := MinerText(b.proof, MinerSum(b.time, b.previusHash, MerkleHash(H, b)));
            |mined| == |Preimage(H, b)| ==> 0 < b.proof && ToU64(b.time) < Pow10(11)
  {
    hide Pow10, Dec, PadDec, Hex, MerkleHash;
    PadDecLength(11, ToU64(b.time));
  }

  lemma TextsMeet(H: Hash, b: Block)
    requires 0 < b.proof && ToU64(b.time) < Pow10(11)
    ensures MinerText(b.proof, MinerSum(b.time, b.previusHash, MerkleHash(H, b))) == Preimage(H, b)
  {
    hide Pow10, Dec, PadDec, Hex, MerkleHash;
    PadDecLength(11, ToU64(b.time));
    var proof, time := Dec(b.proof), PadDec(11, ToU64(b.time));
    assert ProofText(b.proof) == proof && TimeText(b.time) == time;
    assert proof + (time + Hex(b.previusHash) + Hex(MerkleHash(H, b)))
        == proof + time + Hex(b.previusHash) + Hex(MerkleHash(H, b));
  }

  /** Times that the 11 characters of the preimage tell apart. */
  predicate TimeFits(time: Time) {
    0 <= time < Pow10(11)
  }

  /** The preimage determines proof, time, previous hash and the hash of the transactions. */
  lemma PreimageInjective(H: Hash, a: Block, b: Block)
    requires Preimage(H, a) == Preimage(H, b) && TimeFits(a.time) && TimeFits(b.time)
    ensures a.proof == b.proof && a.time == b.time
    ensures a.previusHash == b.previusHash && MerkleHash(H, a) == MerkleHash(H, b)
  {
    SplitSame(ProofText(a.proof) + TimeText(a.time) + Hex(a.previusHash), Hex(MerkleHash(H, a)),
              ProofText(b.proof) + TimeText(b.time) + Hex(b.previusHash), Hex(MerkleHash(H, b)));
    SplitSame(ProofText(a.proof) + TimeText(a.time), Hex(a.previusHash),
              ProofText(b.proof) + TimeText(b.time), Hex(b.previusHash));
    SplitSame(ProofText(a.proof), TimeText(a.time), ProofText(b.proof), TimeText(b.time));
    HexInjective(a.previusHash, b.previusHash);
    HexInjective(MerkleHash(H, a), MerkleHash(H, b));
    ProofTextInjective(a.proof, b.proof);
    TimeTextWhole(a.time);
    TimeTextWhole(b.time);
    PadDecInjective(11, a.time, b.time);
  }

  lemma ProofTextInjective(p: U64, q: U64)
    requires ProofText(p) == ProofText(q)
    ensures p == q
  {
    ValueOfDec(p);
    ValueOfDec(q);
  }

  lemma TimeTextWhole(time: Time)
    requires TimeFits(time)
    ensures TimeText(time) == PadDec(11, time)
  {
    PadDecLength(11, time);
  }
}
