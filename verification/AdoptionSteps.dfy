/**
 The adoption of a chain as the code does it: the chain is replaced under bc_m.mutex, and then
 the list is filtered under txs_temp_m.mutex besides. The main loop is busy in between and the
 tip cannot be read, but the miner's other steps go on. They might as well have come before.
 */
module AdoptionSteps {
  import opened Blocks
  import opened Ledger
  import opened Protocol

  /** adopting: the chain has been replaced and the list has not been filtered yet. */
  datatype Moment = Moment(s: State, adopting: bool)

  datatype FineEvent =
    | Whole(e: Event)
    | Replace(c: seq<Block>)
    | Filter

  /** The steps of the miner that do not need bc_m.mutex. */
  predicate WithoutChain(e: Event) {
    e.CheckSize? || e.Snapshot? || e.Remove? || e.PushBlock?
  }

  predicate Happens(m: Moment, e: Event) {
    if m.adopting then WithoutChain(e) else !e.ChainMessage?
  }

  function FineStep(H: Hash, m: Moment, e: FineEvent): (r: Moment)
    requires m.s.chain != []
    ensures r.s.chain != []
  {
    match e
    case Whole(e) => if Happens(m, e) then m.(s := Step(H, m.s, e)) else m
    case Replace(c) => if !m.adopting && Adopts(H, m.s.chain, c) then Moment(m.s.(chain := c), true) else m
    case Filter => if m.adopting then Moment(m.s.(pending := Updated(m.s.pending, m.s.chain)), false) else m
  }

  function FineRun(H: Hash, m: Moment, es: seq<FineEvent>): (r: Moment)
    requires m.s.chain != []
    ensures r.s.chain != []
  {
    if es == [] then m else FineStep(H, FineRun(H, m, es[..|es| - 1]), es[|es| - 1])
  }

  /** The same run with each adoption as one step, at the moment the list is filtered. */
  function Collapsed(H: Hash, s: State, es: seq<FineEvent>): seq<Event>
    requires s.chain != []
  {
    if es == [] then [] else
      var front := es[..|es| - 1];
      var m := FineRun(H, Moment(s, false), front);
      Collapsed(H, s, front) +
      match es[|es| - 1]
      case Whole(e) => if Happens(m, e) then [e] else []
      case Replace(_) => []
      case Filter => if m.adopting then [ChainMessage(m.s.chain)] else []
  }

  /** A copy, a removal and a queued block come out the same before and after a chain is replaced. */
  lemma MinerCommutes(H: Hash, s: State, c: seq<Block>, e: Event)
    requires s.chain != [] && c != [] && WithoutChain(e)
    ensures Step(H, s.(chain := c), e) == Step(H, s, e).(chain := c)
    ensures Step(H, s, e).chain == s.chain
  {
    hide BlockHash;
  }

  /** What a moment has to do with the state of the collapsed run. */
  predicate Mirrors(H: Hash, m: Moment, r: State)
    requires r.chain != []
  {
    if m.adopting then m.s == r.(chain := m.s.chain) && Adopts(H, r.chain, m.s.chain) else m.s == r
  }

  lemma FineStepMirrors(H: Hash, m: Moment, r: State, e: FineEvent)
    requires m.s.chain != [] && r.chain != [] && Mirrors(H, m, r)
    ensures match e
            case Whole(e) => Mirrors(H, FineStep(H, m, Whole(e)), if Happens(m, e) then Step(H, r, e) else r)
            case Replace(c) => Mirrors(H, FineStep(H, m, e), r)
            case Filter => Mirrors(H, FineStep(H, m, e), if m.adopting then Step(H, r, ChainMessage(m.s.chain)) else r)
  {
    hide BlockHash, ValidChain, Better, Updated, Linked, Enough;
    match e
    case Whole(e) => if m.adopting && Happens(m, e) { MinerCommutes(H, r, m.s.chain, e); }
    case _ =>
  }

  /**
   Every run with adoptions in two parts ends in the state of the collapsed run; in the middle
   of an adoption they differ in the chain alone, by which the collapsed run is about to be replaced.
   */
  lemma {:induction false} AdoptionIsOneStep(H: Hash, s: State, es: seq<FineEvent>)
    requires s.chain != []
    ensures Mirrors(H, FineRun(H, Moment(s, false), es), Run(H, s, Collapsed(H, s, es)))
  {
    hide Step, FineStep, Mirrors;
    if es == [] {
      StartMirrors(H, s);
    } else {
      var front, last := es[..|es| - 1], es[|es| - 1];
      AdoptionIsOneStep(H, s, front);
      var events := Collapsed(H, s, front);
      var m := FineRun(H, Moment(s, false), front);
      FineStepMirrors(H, m, Run(H, s, events), last);
      assert events + [] == events;
      match last
      case Whole(e) => RunSnoc(H, s, events, e);
      case Replace(_) =>
      case Filter => RunSnoc(H, s, events, ChainMessage(m.s.chain));
    }
  }

  lemma StartMirrors(H: Hash, s: State)
    requires s.chain != []
    ensures Mirrors(H, Moment(s, false), s)
  {
  }
}
