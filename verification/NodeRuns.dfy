/** The node's code under any sequence of inputs: the theorems about runs hold of the class. */
module NodeRuns {
  import opened Bytes
  import opened Transactions
  import opened Blocks
  import opened Ledger
  import opened Protocol
  import opened AdoptionSteps
  import opened Codec
  import opened Node
  import opened ChainRuns
  import opened PendingRuns

  /** What reaches the node, or what its threads do next; a chain comes as the bytes of its message. */
  datatype Input =
    | InTransaction(t: Transaction)
    | InChain(data: seq<Byte>)
    | InFilter
    | InMined
    | InSize
    | InTime(now: Time)
    | InSnapshot
    | InProof(proof: U64)
    | InPush

  /** The bytes hold all that the decoder reads. */
  predicate Readable(i: Input) {
    i.InChain? ==> DecodeChain(i.data).Some?
  }

  function EventOf(i: Input): FineEvent
    requires Readable(i)
  {
    match i
    case InTransaction(t) => Whole(Tx(t))
    case InChain(data) => Replace(DecodeChain(data).value)
    case InFilter => Filter
    case InMined => Whole(MinedBlock)
    case InSize => Whole(CheckSize)
    case InTime(now) => Whole(ReadTip(now))
    case InSnapshot => Whole(Snapshot)
    case InProof(proof) => Whole(Remove(proof))
    case InPush => Whole(PushBlock)
  }

  predicate AllReadable(inputs: seq<Input>) {
    forall k | 0 <= k < |inputs| :: Readable(inputs[k])
  }

  function EventsOf(inputs: seq<Input>): seq<FineEvent>
    requires AllReadable(inputs)
  {
    seq(|inputs|, k requires 0 <= k < |inputs| => EventOf(inputs[k]))
  }

  lemma FineRunNext(H: Hash, chain: seq<Block>, inputs: seq<Input>, k: nat)
    requires chain != [] && AllReadable(inputs) && k < |inputs|
    ensures FineRun(H, Moment(Start(chain), false), EventsOf(inputs[..k + 1])) ==
            FineStep(H, FineRun(H, Moment(Start(chain), false), EventsOf(inputs[..k])), EventOf(inputs[k]))
  {
    hide FineStep;
    var front := EventsOf(inputs[..k]);
    assert EventsOf(inputs[..k + 1]) == front + [EventOf(inputs[k])];
    assert (front + [EventOf(inputs[k])])[..|front|] == front;
  }

  /** Whether the locks let the step happen now. */
  predicate CanTake(adopting: bool, input: Input) {
    match input
    case InTransaction(_) | InChain(_) | InMined | InTime(_) => !adopting
    case InFilter => adopting
    case _ => true
  }

  lemma CannotTake(H: Hash, m: Moment, input: Input)
    requires m.s.chain != [] && Readable(input) && !CanTake(m.adopting, input)
    ensures FineStep(H, m, EventOf(input)) == m
  {
  }

  // one step of gestion or of mining, if the locks allow it
  method Take(node: Node, input: Input)
    requires node.Valid() && Readable(input)
    modifies node, node.bc, node.txs, node.txs.transactions
    ensures node.Valid() && node.At() == FineStep(node.H, old(node.At()), EventOf(input))
    ensures node.txs.transactions == old(node.txs.transactions) || fresh(node.txs.transactions)
  {
    hide Step, Linked, Adopts, Sent, Enough, Updated;
    if !CanTake(node.adopting, input) {
      CannotTake(node.H, node.At(), input);
      return;
    }
    match input
    case InTransaction(t) => var accepted := node.OnTransaction(t);
    case InChain(data) => var adopted := node.ReplaceChain(data);
    case InFilter => node.FilterList();
    case InMined => var success := node.OnMinedBlock();
    case InSize => node.MinerCheckSize();
    case InTime(now) => node.MinerReadTip(now);
    case InSnapshot => node.MinerSnapshot();
    case InProof(proof) => node.MinerRemove(proof);
    case InPush => node.MinerPush();
  }

  /** The theorems about runs, at every moment of a run with adoptions in two parts. */
  lemma EveryMoment(H: Hash, chain: seq<Block>, es: seq<FineEvent>)
    requires CanStartFrom(H, chain) && chain != []
    ensures var m := FineRun(H, Moment(Start(chain), false), es);
            && ValidChain(H, m.s.chain) && Grown(m.s.chain, chain) && DistinctSenders(m.s.pending)
            && (!m.adopting ==> m.s == Run(H, Start(chain), Collapsed(H, Start(chain), es)))
    ensures var c := FineRun(H, Moment(Start(chain), false), es).s.chain;
            c == chain || |chain| < |c| || (|c| == |chain| && Tip(c).time < Tip(chain).time)
  {
    hide ValidChain, FineRun, DistinctSenders, CanStartFrom, Run;
    var events := Collapsed(H, Start(chain), es);
    AdoptionIsOneStep(H, Start(chain), es);
    AlwaysValid(H, chain, events);
    SendersDistinct(H, chain, events);
    var m, r := FineRun(H, Moment(Start(chain), false), es), Run(H, Start(chain), events);
    BetterIsAnOrder(m.s.chain, r.chain, chain);
  }

  // gestion and mining, with their steps in any order
  method Drive(H: Hash, chain: seq<Block>, inputs: seq<Input>) returns (node: Node)
    requires CanStartFrom(H, chain) && chain != [] && AllReadable(inputs)
    ensures node.Valid() && node.H == H
    ensures node.At() == FineRun(H, Moment(Start(chain), false), EventsOf(inputs))
    ensures ValidChain(H, node.bc.blocks) && Grown(node.bc.blocks, chain)
    ensures var c := node.bc.blocks;
            c == chain || |chain| < |c| || (|c| == |chain| && Tip(c).time < Tip(chain).time)
    ensures DistinctSenders(node.txs.Contents())
    ensures !node.adopting ==> node.Abs() == Run(H, Start(chain), Collapsed(H, Start(chain), EventsOf(inputs)))
  {
    hide FineStep, ValidChain, Better, CanStartFrom, DistinctSenders, FineRun, Run;
    node := new Node(H, chain);
    FineRunOfNone(H, chain);
    assert EventsOf(inputs[..0]) == [];
    for k := 0 to |inputs|
      invariant node.Valid() && node.H == H
      invariant fresh(node) && fresh(node.bc) && fresh(node.txs) && fresh(node.txs.transactions)
      invariant node.At() == FineRun(H, Moment(Start(chain), false), EventsOf(inputs[..k]))
    {
      FineRunNext(H, chain, inputs, k);
      Take(node, inputs[k]);
    }
    assert inputs[..|inputs|] == inputs;
    EveryMoment(H, chain, EventsOf(inputs));
  }

  lemma FineRunOfNone(H: Hash, chain: seq<Block>)
    requires chain != []
    ensures FineRun(H, Moment(Start(chain), false), []) == Moment(Start(chain), false)
  {
  }
}
