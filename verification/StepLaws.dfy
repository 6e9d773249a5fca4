/** What each step of the node does, in terms of the fields it changes. */
module StepLaws {
  import opened Bytes
  import opened Transactions
  import opened Blocks
  import opened Ledger
  import opened Protocol
  import opened PendingRuns

  /**
   A transaction is appended to the list if and only if nobody in the list has its sender and
   the wrapped balance reaches its amount; otherwise nothing happens.
   */
  lemma AdmissionExactly(H: Hash, s: State, t: Transaction)
    requires s.chain != []
    ensures var r := Step(H, s, Tx(t));
            && (r.pending == s.pending + [t] <==>
                  && (forall u | u in s.pending :: u.sender != t.sender)
                  && t.amount <= Balance(t.sender, s.chain) % U64_LIMIT)
            && (r.pending == s.pending + [t] || r.pending == s.pending)
            && r == s.(pending := r.pending)
  {
    hide Balance;
    assert s.pending + [t] != s.pending;
  }

  /** A received chain replaces the held one if and only if it is valid and longer, or as long with an older tip. */
  lemma AdoptionExactly(H: Hash, s: State, c: seq<Block>)
    requires s.chain != []
    ensures var r := Step(H, s, ChainMessage(c));
            if ValidChain(H, c) && (|s.chain| < |c| || (|c| == |s.chain| && Tip(c).time < Tip(s.chain).time))
            then r == s.(chain := c, pending := r.pending) else r == s
  {
    hide ValidChain, Updated;
  }

  /** After an adoption the list has what it had, less what is in a block of the chain behind the first or not covered. */
  lemma AdoptionFilters(H: Hash, s: State, c: seq<Block>)
    requires s.chain != [] && Step(H, s, ChainMessage(c)) != s
    ensures var r := Step(H, s, ChainMessage(c));
            && r.chain == c
            && (forall t :: t in r.pending <==>
                  && t in s.pending
                  && (forall i | 1 <= i < |r.chain| :: t !in r.chain[i].tl)
                  && t.amount <= Balance(t.sender, r.chain) % U64_LIMIT)
            && |r.pending| <= |s.pending|
  {
    hide ValidChain, Updated, Better;
    UpdatedMembers(s.pending, c);
    UpdatedKeeps(s.pending, c);
  }

  /** The head of the queue is taken, and appended if and only if it meets the three conditions. */
  lemma TakingExactly(H: Hash, s: State)
    requires s.chain != []
    ensures var r := Step(H, s, MinedBlock);
            if s.mined == [] then r == s
            else
              var b, tip := s.mined[0], s.chain[|s.chain| - 1];
              && r == s.(mined := s.mined[1..], chain := r.chain)
              && r.chain == if tip.time <= b.time && b.previusHash == tip.blockHash && b.blockHash == BlockHash(H, b)
                            then s.chain + [b] else s.chain
  {
    hide BlockHash;
  }

  /** The miner leaves an empty list alone, and otherwise goes on to read the tip. */
  lemma SizeExactly(H: Hash, s: State)
    requires s.chain != [] && s.miner == Idle
    ensures Step(H, s, CheckSize) == if s.pending == [] then s else s.(miner := Ready)
  {
  }

  lemma TipExactly(H: Hash, s: State, now: Time)
    requires s.chain != [] && s.miner == Ready
    ensures Step(H, s, ReadTip(now)) == s.(miner := HasTip(s.chain[|s.chain| - 1].blockHash, now))
  {
  }

  lemma CopyExactly(H: Hash, s: State)
    requires s.chain != [] && s.miner.HasTip?
    ensures var r := Step(H, s, Snapshot);
            && r == s.(miner := r.miner) && r.miner.Mining? && r.miner.count == |s.pending|
            && r.miner.block.previusHash == s.miner.previusHash && r.miner.block.time == s.miner.time
            && r.miner.block.tl == s.pending
  {
  }

  /** As many as were copied go from the front of the list, or all there are. */
  lemma RemovalExactly(H: Hash, s: State, proof: U64)
    requires s.chain != [] && s.miner.Mining?
    ensures var r := Step(H, s, Remove(proof));
            && r == s.(pending := r.pending, miner := Removed(s.miner.block.(proof := proof)))
            && |r.pending| == (if s.miner.count <= |s.pending| then |s.pending| - s.miner.count else 0)
            && forall i | 0 <= i < |r.pending| :: r.pending[i] == s.pending[s.miner.count + i]
  {
  }

  lemma QueueingExactly(H: Hash, s: State)
    requires s.chain != [] && s.miner.Removed?
    ensures var r := Step(H, s, PushBlock);
            && r == s.(mined := r.mined, miner := Idle) && |r.mined| == |s.mined| + 1 && r.mined[..|s.mined|] == s.mined
            && r.mined[|s.mined|] == s.miner.block.(blockHash := BlockHash(H, s.miner.block))
  {
    hide BlockHash;
  }

  /** At any other place the miner's events are no steps. */
  lemma MisplacedIsNothing(H: Hash, s: State, e: Event)
    requires s.chain != []
    requires match e
             case CheckSize => !s.miner.Idle?
             case ReadTip(_) => !s.miner.Ready?
             case Snapshot => !s.miner.HasTip?
             case Remove(_) => !s.miner.Mining?
             case PushBlock => !s.miner.Removed?
             case _ => false
    ensures Step(H, s, e) == s
  {
  }
}
