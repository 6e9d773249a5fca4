/**
 The node of Projet/Noeud_de_gestion/gestion.c as a state machine. What one thread does
 under its mutexes is one step; the steps of the main loop and of the miner interleave.
 The adoption of a chain takes two mutexes one after the other: AdoptionSteps cuts it in
 two and shows that no run gains anything by what happens in between.
 */
module Protocol {
  import opened Bytes
  import opened Transactions
  import opened Blocks
  import opened Ledger

  /** Where the mining thread stands in its loop. */
  datatype Miner =
    | Idle
    | Ready                                    // the list was not empty when its size was read
    | HasTip(previusHash: Digest, time: Time)  // the tip has been read and the block stamped
    | Mining(block: Block, count: nat)         // count transactions have been copied from the list
    | Removed(block: Block)                    // the first count of the list are gone

  /** mined is the queue from the miner to the main loop. */
  datatype State = State(chain: seq<Block>, pending: seq<Transaction>, mined: seq<Block>, miner: Miner)

  datatype Event =
    | Tx(t: Transaction)          // a transaction from the network or from the API
    | ChainMessage(c: seq<Block>) // a chain from the network
    | MinedBlock                  // the main loop takes a block from the queue
    | CheckSize                   // the miner looks at the size of the list, without its mutex
    | ReadTip(now: Time)
    | Snapshot
    | Remove(proof: U64)
    | PushBlock

  /** The digest field of a block that has not been hashed yet. */
  function NoDigest(): Digest { seq(32, _ => 0) }

  /** A refused transaction leaves no trace: its sender has one pending already, or not enough. */
  function Admit(s: State, t: Transaction): State {
    if Sent(t.sender, s.pending) || !Enough(t.sender, t.amount, s.chain) then s
    else s.(pending := s.pending + [t])
  }

  /** The order in which chains replace each other: longer, or as long with an older tip. */
  predicate Better(c: seq<Block>, d: seq<Block>)
    requires d != []
  {
    |d| < |c| || (|d| == |c| && Tip(c).time < Tip(d).time)
  }

  predicate Adopts(H: Hash, chain: seq<Block>, c: seq<Block>)
    requires chain != []
  {
    ValidChain(H, c) && Better(c, chain)
  }

  function Receive(H: Hash, s: State, c: seq<Block>): State
    requires s.chain != []
  {
    if Adopts(H, s.chain, c) then s.(chain := c, pending := Updated(s.pending, c)) else s
  }

  function TakeMined(H: Hash, s: State): State
    requires s.chain != []
  {
    if s.mined == [] then s
    else if Linked(H, Tip(s.chain), s.mined[0]) then s.(chain := s.chain + [s.mined[0]], mined := s.mined[1..])
    else s.(mined := s.mined[1..])
  }

  /** removeTxsList(tl, 0, count), which may find fewer than count transactions. */
  function DropFirst<T>(l: seq<T>, count: nat): seq<T> {
    if count < |l| then l[count..] else []
  }

  lemma RemovesFirst<T>(l: seq<T>, count: nat)
    ensures l[..0] + l[if count < |l| then count else |l|..] == DropFirst(l, count)
  {
  }

  /** The steps of the mining thread; an event that does not fit its place is no step at all. */
  function MinerStep(H: Hash, s: State, e: Event): State
    requires s.chain != []
  {
    if e.CheckSize? && s.miner.Idle? && s.pending != [] then
      s.(miner := Ready)
    else if e.ReadTip? && s.miner.Ready? then
      s.(miner := HasTip(Tip(s.chain).blockHash, e.now))
    else if e.Snapshot? && s.miner.HasTip? then
      s.(miner := Mining(Block(s.miner.previusHash, s.pending, NoDigest(), 0, s.miner.time), |s.pending|))
    else if e.Remove? && s.miner.Mining? then
      s.(pending := DropFirst(s.pending, s.miner.count), miner := Removed(s.miner.block.(proof := e.proof)))
    else if e.PushBlock? && s.miner.Removed? then
      s.(mined := s.mined + [s.miner.block.(blockHash := BlockHash(H, s.miner.block))], miner := Idle)
    else s
  }

  function Step(H: Hash, s: State, e: Event): (r: State)
    requires s.chain != []
    ensures r.chain != []
  {
    match e
    case Tx(t) => Admit(s, t)
    case ChainMessage(c) => Receive(H, s, c)
    case MinedBlock => TakeMined(H, s)
    case _ => MinerStep(H, s, e)
  }

  function Run(H: Hash, s: State, events: seq<Event>): (r: State)
    requires s.chain != []
    ensures r.chain != []
  {
    if events == [] then s else Step(H, Run(H, s, events[..|events| - 1]), events[|events| - 1])
  }

  lemma RunSnoc(H: Hash, s: State, events: seq<Event>, e: Event)
    requires s.chain != []
    ensures Run(H, s, events + [e]) == Step(H, Run(H, s, events), e)
  {
    hide Step;
    assert (events + [e])[..|events|] == events;
  }

  lemma RunEmpty(H: Hash, s: State)
    requires s.chain != []
    ensures Run(H, s, []) == s
  {
  }
}
