/** The genesis block that createGenesis mines with one thread, and the chain that starts with it. */
module Genesis {
  import opened Bytes
  import opened Decimal
  import opened Difficulty
  import opened Transactions
  import opened Blocks
  import opened Ledger
  import opened Conservation
  import opened Overdraft
  import opened Blockchain
  import opened Protocol
  import opened ChainRuns
  import Mining

  const REWARD: U64 := 1_000_000

  /** The string that createGenesis mines for: its time is written with "%011ld", as a signed number. */
  function GenesisSum(time: Time, previusHash: Digest, merkleHash: Digest): CString {
    PadSigned(11, time) + Hex(previusHash) + Hex(merkleHash)
  }

  lemma GenesisSumFields(time: Time, previusHash: Digest, merkleHash: Digest)
    ensures var sum := GenesisSum(time, previusHash, merkleHash);
            var m := |sum| - 128;
            && m >= 11 && sum[m..m + 64] == Hex(previusHash) && sum[m + 64..] == Hex(merkleHash)
            && if time < 0 then sum[0] == MINUS && Value(sum[1..m]) + time == 0 else Value(sum[..m]) == time
  {
    hide Value, Hex, PadSigned;
    var sum, text := GenesisSum(time, previusHash, merkleHash), PadSigned(11, time);
    PadSignedReads(11, time);
    assert sum[..|text|] == text && sum[1..|text|] == text[1..];
    assert sum[|text|..|text| + 64] == Hex(previusHash) && sum[|text| + 64..] == Hex(merkleHash);
  }

  function GenesisTest(H: Hash, diff: nat, time: Time, key: CString, txTime: Time): Mining.Test
    requires diff <= 64
  {
    (p: U64) => Mining.Passes(H, diff, GenesisSum(time, NoDigest(), H(TlText([Transaction([], key, REWARD, txTime)]))), p)
  }

  // createGenesis; what mine_from_string returns for one thread is the parameter
  method CreateGenesis(H: Hash, diff: nat, key: CString, time: Time, txTime: Time, proof: U64) returns (newGenesis: Block)
    requires diff <= 64 && Mining.MiningResult(GenesisTest(H, diff, time, key, txTime), 1, proof)
    ensures newGenesis.tl == [Transaction([], key, REWARD, txTime)] && newGenesis.previusHash == NoDigest()
    ensures newGenesis.time == time && newGenesis.blockHash == BlockHash(H, newGenesis)
    ensures forall p: U64 :: p == newGenesis.proof <==>
              && GenesisTest(H, diff, time, key, txTime)(p)
              && forall q: U64 | q < p :: !GenesisTest(H, diff, time, key, txTime)(q)
  {
    hide BlockHash, GenesisTest, Mining.MiningResult;
    var list := new TransactionsList();
    list.Add(Transaction([], key, REWARD, txTime));
    var tl := list.transactions[..list.size];
    newGenesis := Block(NoDigest(), tl, NoDigest(), 0, time);
    newGenesis := newGenesis.(proof := proof);
    var hash := GetHash(H, newGenesis);
    HashIgnoresItself(H, newGenesis, hash);
    newGenesis := newGenesis.(blockHash := hash);
    Mining.OneThreadFindsLeast(GenesisTest(H, diff, time, key, txTime), proof);
  }

  // initBlockchain
  method InitBlockchain(H: Hash, newGenesis: Block) returns (newBlockchain: Chain)
    ensures newBlockchain.H == H && newBlockchain.blocks == [newGenesis] && fresh(newBlockchain)
    ensures CanStartFrom(H, newBlockchain.blocks) && ValidChain(H, newBlockchain.blocks)
  {
    newBlockchain := new Chain(H, [newGenesis]);
  }

  /** The reward is all the money there is, and the key has it. */
  lemma GenesisIsSolvent(A: seq<CString>, key: CString, b: Block)
    requires PrefixFree(A) && key in A && |b.tl| == 1
    requires b.tl[0].sender == [] && b.tl[0].receiver == key && b.tl[0].amount == REWARD
    ensures Solvent(A, [b]) && Minted([b]) == REWARD
    ensures forall a | a in A :: Balance(a, [b]) == if a == key then REWARD else 0
  {
    assert [] + [b] == [b] && b.tl == [b.tl[0]];
    MintedSnoc([], b);
    assert MintedTl(b.tl) == REWARD by {
      assert b.tl[..0] == [];
    }
    assert KnownTx(A, b.tl[0]);
    forall a | a in A
      ensures Balance(a, [b]) == if a == key then REWARD else 0
    {
      BalanceSnoc(a, [], b);
      assert b.tl[..0] == [];
      OnlyItself(A, a, key);
      OnlyItself(A, a, []);
    }
  }

  /**
   The string mined for is the one getHash hashes, so that the difficulty carries over to the
   block's hash, exactly when the proof is positive and the time has at most 11 digits and no sign.
   */
  lemma GenesisTextIsPreimage(H: Hash, b: Block)
    ensures MinerText(b.proof, GenesisSum(b.time, b.previusHash, MerkleHash(H, b))) == Preimage(H, b)
       <==> 0 < b.proof && 0 <= b.time < Pow10(11)
  {
    hide MerkleHash, Hex, Pow10;
    if b.time >= 0 {
      MinedTextIsPreimage(H, b);
    } else if b.proof > 0 {
      SignShows(H, b);
    } else {
      PadSignedLength(b.time);
    }
  }

  lemma PadSignedLength(time: Time)
    requires time < 0
    ensures |PadSigned(11, time)| >= 11
  {
  }

  lemma SignShows(H: Hash, b: Block)
    requires b.time < 0 && b.proof > 0
    ensures MinerText(b.proof, GenesisSum(b.time, b.previusHash, MerkleHash(H, b))) != Preimage(H, b)
  {
    hide MerkleHash, Hex, Dec, Pow10;
    var n := |Dec(b.proof)|;
    var digits := PadDec(11, ToU64(b.time));
    assert Preimage(H, b)[n] == digits[0];
    assert digits[0] in digits && IsDigit(digits[0]);
    assert MinerText(b.proof, GenesisSum(b.time, b.previusHash, MerkleHash(H, b)))[n] == MINUS;
  }
}
