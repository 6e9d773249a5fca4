/**
 What every run of the node keeps of its chain: it stays valid, it only ever changes for a
 better one, and the blocks that the miner hands over carry the work that was asked for.
 */
module ChainRuns {
  import opened Bytes
  import opened Decimal
  import opened Difficulty
  import opened Blocks
  import opened Ledger
  import opened Protocol
  import opened Codec
  import opened RoundTrips
  import Mining

  /** The state gestion starts in. */
  function Start(chain: seq<Block>): (s: State) {
    State(chain, [], [], Idle)
  }

  lemma BetterIsAnOrder(c: seq<Block>, d: seq<Block>, e: seq<Block>)
    requires d != [] && e != []
    ensures !Better(d, d)
    ensures Better(c, d) && Better(d, e) ==> Better(c, e)
  {
  }

  predicate Grown(c: seq<Block>, d: seq<Block>)
    requires d != []
  {
    c == d || Better(c, d)
  }

  lemma StepProgress(H: Hash, s: State, e: Event)
    requires s.chain != [] && ValidChain(H, s.chain)
    ensures var r := Step(H, s, e); ValidChain(H, r.chain) && Grown(r.chain, s.chain)
  {
    hide ValidChain, Linked;
    if e.MinedBlock? && s.mined != [] {
      ValidChainSnoc(H, s.chain, s.mined[0]);
    }
  }

  /** Every run keeps the chain valid, and every change of it is an improvement. */
  lemma {:induction false} RunProgress(H: Hash, s: State, events: seq<Event>)
    requires s.chain != [] && ValidChain(H, s.chain)
    ensures var r := Run(H, s, events); ValidChain(H, r.chain) && Grown(r.chain, s.chain)
    ensures var r := Run(H, s, events).chain;
            r == s.chain || |s.chain| < |r| || (|r| == |s.chain| && Tip(r).time < Tip(s.chain).time)
  {
    hide ValidChain, Step;
    if events != [] {
      var front := events[..|events| - 1];
      RunProgress(H, s, front);
      StepProgress(H, Run(H, s, front), events[|events| - 1]);
      BetterIsAnOrder(Run(H, s, events).chain, Run(H, s, front).chain, s.chain);
    }
  }

  lemma {:induction false} RunSplits(H: Hash, s: State, first: seq<Event>, second: seq<Event>)
    requires s.chain != []
    ensures Run(H, s, first + second) == Run(H, Run(H, s, first), second)
  {
    hide Step;
    if second == [] {
      assert first + second == first;
    } else {
      var front := second[..|second| - 1];
      assert (first + second)[..|first + second| - 1] == first + front;
      RunSplits(H, s, first, front);
    }
  }

  /** No run comes back to a chain it has left. */
  lemma NoReturn(H: Hash, s: State, events: seq<Event>, i: nat, j: nat, k: nat)
    requires s.chain != [] && ValidChain(H, s.chain) && i <= j <= k <= |events|
    requires Run(H, s, events[..i]).chain == Run(H, s, events[..k]).chain
    ensures Run(H, s, events[..j]).chain == Run(H, s, events[..i]).chain
  {
    hide ValidChain, Run;
    assert events[..j] == events[..i] + events[i..j] && events[..k] == events[..j] + events[j..k];
    RunSplits(H, s, events[..i], events[i..j]);
    RunSplits(H, s, events[..j], events[j..k]);
    RunProgress(H, s, events[..i]);
    RunProgress(H, s, events[..j]);
    RunProgress(H, Run(H, s, events[..i]), events[i..j]);
    RunProgress(H, Run(H, s, events[..j]), events[j..k]);
    var c, d := Run(H, s, events[..i]).chain, Run(H, s, events[..j]).chain;
    BetterIsAnOrder(c, d, c);
  }

  /** A chain a node can start from: a lone genesis block, or one loaded from the file of a valid chain. */
  ghost predicate CanStartFrom(H: Hash, chain: seq<Block>) {
    || |chain| == 1
    || exists saved ::
         && saved != [] && ValidChain(H, saved) && ChainFits(saved) && |EncodeChain(saved)| < U64_LIMIT
         && LoadFile(SaveFile(saved)) == Some(chain)
  }

  lemma AlwaysValid(H: Hash, chain: seq<Block>, events: seq<Event>)
    requires CanStartFrom(H, chain)
    ensures chain != [] && ValidChain(H, chain)
    ensures var r := Run(H, Start(chain), events);
            r.chain != [] && ValidChain(H, r.chain) && Grown(r.chain, chain)
    ensures var r := Run(H, Start(chain), events).chain;
            r == chain || |chain| < |r| || (|r| == |chain| && Tip(r).time < Tip(chain).time)
  {
    hide ChainFits, SaveFile, LoadFile, EncodeChain;
    if |chain| != 1 {
      var saved :| && saved != [] && ValidChain(H, saved) && ChainFits(saved) && |EncodeChain(saved)| < U64_LIMIT
                   && LoadFile(SaveFile(saved)) == Some(chain);
      SaveLoadRoundTrip(saved);
    }
    RunProgress(H, Start(chain), events);
  }

  /** The file that save_worker writes at any moment of a run brings the node back to its chain. */
  lemma SavedStateRestarts(H: Hash, chain: seq<Block>, events: seq<Event>)
    requires CanStartFrom(H, chain) && chain != []
    requires var c := Run(H, Start(chain), events).chain; ChainFits(c) && |EncodeChain(c)| < U64_LIMIT
    ensures var c := Run(H, Start(chain), events).chain;
            LoadFile(SaveFile(c)) == Some(c) && CanStartFrom(H, c)
  {
    hide ChainFits, SaveFile, LoadFile, EncodeChain, Run, ValidChain;
    AlwaysValid(H, chain, events);
    SaveLoadRoundTrip(Run(H, Start(chain), events).chain);
  }

  /** Every block in the queue carries the hash that addBlock will compute for it. */
  predicate QueueHashed(H: Hash, s: State) {
    forall i | 0 <= i < |s.mined| :: s.mined[i].blockHash == BlockHash(H, s.mined[i])
  }

  lemma {:induction false} RunQueueHashed(H: Hash, chain: seq<Block>, events: seq<Event>)
    requires chain != []
    ensures QueueHashed(H, Run(H, Start(chain), events))
  {
    hide Step;
    if events != [] {
      RunQueueHashed(H, chain, events[..|events| - 1]);
      StepQueueHashed(H, Run(H, Start(chain), events[..|events| - 1]), events[|events| - 1]);
    }
  }

  lemma StepQueueHashed(H: Hash, s: State, e: Event)
    requires s.chain != [] && QueueHashed(H, s)
    ensures QueueHashed(H, Step(H, s, e))
  {
    hide BlockHash, ValidChain, Linked, Updated, Enough;
    if s.miner.Removed? {
      HashIgnoresItself(H, s.miner.block, BlockHash(H, s.miner.block));
    }
  }

  lemma HashIgnoresItself(H: Hash, b: Block, d: Digest)
    ensures BlockHash(H, b.(blockHash := d)) == BlockHash(H, b)
  {
    hide Hex, ProofText, TimeText;
  }

  /** In every run, a block taken from the queue is appended exactly when it stands on the tip and is no older. */
  lemma MinedBlockAccepted(H: Hash, chain: seq<Block>, events: seq<Event>)
    requires chain != [] && Run(H, Start(chain), events).mined != []
    ensures var s := Run(H, Start(chain), events);
            var b := s.mined[0];
            Step(H, s, MinedBlock).chain ==
            if b.previusHash == Tip(s.chain).blockHash && Tip(s.chain).time <= b.time then s.chain + [b] else s.chain
  {
    hide BlockHash;
    RunQueueHashed(H, chain, events);
  }

  function TestOf(H: Hash, diff: nat, b: Block): Mining.Test
    requires diff <= 64
  {
    (p: U64) => Mining.Passes(H, diff, MinerSum(b.time, b.previusHash, MerkleHash(H, b)), p)
  }

  /** The proofs of the run come from mine_from_string, called with nb threads and the block's text. */
  ghost predicate ProofsMined(H: Hash, diff: nat, nb: nat, s: State, events: seq<Event>)
    requires diff <= 64 && s.chain != []
  {
    forall k | 0 <= k < |events| ::
      var r := Run(H, s, events[..k]);
      events[k].Remove? && r.miner.Mining? ==> Mining.MiningResult(TestOf(H, diff, r.miner.block), nb, events[k].proof)
  }

  /** The difficulty holds of the block's hash, as it would be computed. */
  predicate Worked(H: Hash, diff: nat, b: Block)
    requires diff <= 64
  {
    0 < b.proof && ToU64(b.time) < Pow10(11) ==> EndsInZeros(diff, BlockHash(H, b))
  }

  lemma PassingProofWorks(H: Hash, diff: nat, b: Block)
    requires diff <= 64 && TestOf(H, diff, b)(b.proof)
    ensures Worked(H, diff, b)
  {
    hide EndsInZeros, Preimage, MinerText, MinerSum, Pow10;
    MinedTextIsPreimage(H, b);
  }

  predicate AllWorked(H: Hash, diff: nat, s: State)
    requires diff <= 64
  {
    && (forall i | 0 <= i < |s.mined| :: Worked(H, diff, s.mined[i]))
    && (s.miner.Removed? ==> Worked(H, diff, s.miner.block))
  }

  lemma WorkedIgnoresHashField(H: Hash, diff: nat, b: Block, d: Digest)
    requires diff <= 64
    ensures Worked(H, diff, b) <==> Worked(H, diff, b.(blockHash := d))
  {
    hide EndsInZeros, Pow10, BlockHash;
    HashIgnoresItself(H, b, d);
  }

  lemma StepWorked(H: Hash, diff: nat, nb: nat, s: State, e: Event)
    requires diff <= 64 && 0 < nb && s.chain != [] && AllWorked(H, diff, s)
    requires e.Remove? && s.miner.Mining? ==> Mining.MiningResult(TestOf(H, diff, s.miner.block), nb, e.proof)
    ensures AllWorked(H, diff, Step(H, s, e))
  {
    hide Worked, TestOf, BlockHash, ValidChain, Linked, Updated, Enough, Mining.MiningResult;
    if e.Remove? && s.miner.Mining? {
      var b := s.miner.block;
      Mining.MiningIsSafe(TestOf(H, diff, b), nb, e.proof);
      SameTest(H, diff, b, e.proof);
      PassingProofWorks(H, diff, b.(proof := e.proof));
    } else if e.PushBlock? && s.miner.Removed? {
      WorkedIgnoresHashField(H, diff, s.miner.block, BlockHash(H, s.miner.block));
    }
  }

  /** The text that is mined for does not depend on the proof field. */
  lemma SameTest(H: Hash, diff: nat, b: Block, proof: U64)
    requires diff <= 64
    ensures TestOf(H, diff, b)(proof) == TestOf(H, diff, b.(proof := proof))(proof)
  {
    hide MinerSum;
    assert MerkleHash(H, b) == MerkleHash(H, b.(proof := proof));
  }

  /**
   From mining to the chain, over whole runs: a block the node appends itself has a hash
   that meets the difficulty, unless its proof is 0 or its time needs a twelfth digit.
   */
  lemma {:induction false} AppendedBlocksWorked(H: Hash, diff: nat, nb: nat, chain: seq<Block>, events: seq<Event>)
    requires diff <= 64 && 0 < nb && chain != []
    requires ProofsMined(H, diff, nb, Start(chain), events)
    ensures AllWorked(H, diff, Run(H, Start(chain), events))
    ensures var s := Run(H, Start(chain), events);
            var r := Step(H, s, MinedBlock);
            r.chain != s.chain ==> Worked(H, diff, Tip(r.chain)) && Tip(r.chain).blockHash == BlockHash(H, Tip(r.chain))
  {
    hide Worked, TestOf, BlockHash, Mining.MiningResult, Step;
    if events != [] {
      var n := |events| - 1;
      forall k | 0 <= k < n && events[..n][k].Remove? && Run(H, Start(chain), events[..n][..k]).miner.Mining?
        ensures Mining.MiningResult(TestOf(H, diff, Run(H, Start(chain), events[..n][..k]).miner.block), nb,
                                    events[..n][k].proof)
      {
        assert events[..n][..k] == events[..k];
      }
      AppendedBlocksWorked(H, diff, nb, chain, events[..n]);
      StepWorked(H, diff, nb, Run(H, Start(chain), events[..n]), events[n]);
    }
    AppendedWasQueued(H, Run(H, Start(chain), events));
  }

  lemma AppendedWasQueued(H: Hash, s: State)
    requires s.chain != []
    ensures var r := Step(H, s, MinedBlock);
            r.chain != s.chain ==>
              s.mined != [] && Tip(r.chain) == s.mined[0] && s.mined[0].blockHash == BlockHash(H, s.mined[0])
  {
    hide BlockHash;
  }
}
