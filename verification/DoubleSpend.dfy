/**
 The runs that the condition on admissions shuts out. Somebody is admitted again while the
 block with his first transaction is mined and not appended: what his balance comes to when
 the miner is between two rounds, for every proof and every time that is not behind the
 block's, and the case of the key of the genesis block, which spends the reward twice.
 */
module DoubleSpend {
  import opened Bytes
  import opened Transactions
  import opened Blocks
  import opened Ledger
  import opened Protocol
  import opened Conservation
  import opened ChainRuns
  import opened PendingRuns
  import opened Overdraft
  import opened Genesis

  // --- any state with a block that is about to be appended

  /** The main loop takes blocks up to the next that links, with what the miner hands over. */
  function AppendNext(H: Hash, s: State): seq<Event>
    requires s.chain != []
  {
    Drain(H, s) + [MinedBlock]
  }

  function NextBlock(H: Hash, s: State): Block
    requires s.chain != [] && Next(H, s) < |InHand(H, s)|
  {
    InHand(H, s)[Next(H, s)]
  }

  function Appended(H: Hash, s: State): State
    requires s.chain != [] && Next(H, s) < |InHand(H, s)|
  {
    State(NextChain(H, s), s.pending, InHand(H, s)[Next(H, s) + 1..], if s.miner.Removed? then Idle else s.miner)
  }

  lemma AppendsNext(H: Hash, s: State)
    requires s.chain != [] && Next(H, s) < |InHand(H, s)|
    ensures Run(H, s, AppendNext(H, s)) == Appended(H, s)
  {
    hide BlockHash, Run, FirstLinked, Drain;
    DrainRuns([], H, s);
    RunSnoc(H, s, Drain(H, s), MinedBlock);
    assert Drained(H, s).mined[0] == NextBlock(H, s);
    assert Drained(H, s).mined[1..] == InHand(H, s)[Next(H, s) + 1..];
  }

  /** A round of the miner, up to the removal. */
  function Mine(now: Time, proof: U64): seq<Event> {
    [CheckSize, ReadTip(now), Snapshot, Remove(proof)]
  }

  /** The block that a round makes of the pending transactions. */
  function RoundOpen(s: State, now: Time, proof: U64): Block
    requires s.chain != []
  {
    Block(Tip(s.chain).blockHash, s.pending, NoDigest(), proof, now)
  }

  lemma LinksUp(H: Hash, prev: Block, tl: seq<Transaction>, now: Time, proof: U64)
    requires prev.time <= now
    ensures Linked(H, prev, Closed(H, Block(prev.blockHash, tl, NoDigest(), proof, now)))
  {
    hide BlockHash;
    var b := Block(prev.blockHash, tl, NoDigest(), proof, now);
    HashIgnoresItself(H, b, BlockHash(H, b));
  }

  /** A round takes everything that is pending into the miner's block. */
  lemma MineTakesAll(H: Hash, s: State, now: Time, proof: U64)
    requires s.chain != [] && (s.miner.Idle? || s.miner.Ready?) && s.pending != []
    ensures Run(H, s, Mine(now, proof)) == s.(pending := [], miner := Removed(RoundOpen(s, now, proof)))
  {
    hide Step, Run;
    var n, open := |s.pending|, RoundOpen(s, now, 0);
    var s1, s2 := s.(miner := Ready), s.(miner := HasTip(Tip(s.chain).blockHash, now));
    var s3, s4 := s.(miner := Mining(open, n)), s.(pending := [], miner := Removed(RoundOpen(s, now, proof)));
    MineSteps(H, s, now, proof);
    RunThree(H, s, CheckSize, ReadTip(now), Snapshot);
    RunSnoc(H, s, [CheckSize, ReadTip(now), Snapshot], Remove(proof));
    assert [CheckSize, ReadTip(now), Snapshot] + [Remove(proof)] == Mine(now, proof);
    assert Step(H, s, CheckSize) == s1 && Step(H, s1, ReadTip(now)) == s2 && Step(H, s2, Snapshot) == s3;
    assert Step(H, s3, Remove(proof)) == s4;
  }

  lemma MineSteps(H: Hash, s: State, now: Time, proof: U64)
    requires s.chain != [] && (s.miner.Idle? || s.miner.Ready?) && s.pending != []
    ensures var tip, open := Tip(s.chain), RoundOpen(s, now, 0);
            && Step(H, s, CheckSize) == s.(miner := Ready)
            && Step(H, s.(miner := Ready), ReadTip(now)) == s.(miner := HasTip(tip.blockHash, now))
            && Step(H, s.(miner := HasTip(tip.blockHash, now)), Snapshot) == s.(miner := Mining(open, |s.pending|))
            && Step(H, s.(miner := Mining(open, |s.pending|)), Remove(proof))
               == s.(pending := [], miner := Removed(RoundOpen(s, now, proof)))
  {
    hide BlockHash;
  }

  lemma RunThree(H: Hash, s: State, a: Event, b: Event, c: Event)
    requires s.chain != []
    ensures Run(H, s, [a, b, c]) == Step(H, Step(H, Step(H, s, a), b), c)
  {
    hide Step, Run;
    RunEmpty(H, s);
    RunSnoc(H, s, [], a);
    RunSnoc(H, s, [a], b);
    RunSnoc(H, s, [a, b], c);
    assert [] + [a] == [a] && [a] + [b] == [a, b] && [a, b] + [c] == [a, b, c];
  }

  /** Neither reading the tip nor mining on it is under way, and no stale block behind the next comes to life with it. */
  predicate BetweenRounds(H: Hash, s: State)
    requires s.chain != []
  {
    && (s.miner.Idle? || s.miner.Ready? || s.miner.Removed?)
    && Next(H, s) < |InHand(H, s)|
    && (Next(H, s) + 1 < |InHand(H, s)| ==> NextBlock(H, s).blockHash != NextBlock(H, s).previusHash)
  }

  /** A second payment t is admitted, the next block is appended, the miner makes a round, and its block is appended. */
  function SecondPaymentRun(H: Hash, s: State, t: Transaction, now: Time, proof: U64): State
    requires s.chain != []
  {
    var a := Step(H, s, Tx(t));
    var b := Run(H, a, AppendNext(H, a));
    var c := Run(H, b, Mine(now, proof));
    Run(H, c, AppendNext(H, c))
  }

  /** What is in hand behind the block that is appended does not link to it. */
  lemma RestIsStale(H: Hash, s: State)
    requires s.chain != [] && InOrder(H, s) && BetweenRounds(H, s)
    ensures var l := Appended(H, s).mined; FirstLinked(H, NextBlock(H, s), l) == |l|
  {
    hide BlockHash;
    var n, l := Next(H, s), Appended(H, s).mined;
    assert Flight(H, s)[n] == Tip(s.chain).blockHash;
    forall i | 0 <= i < |l|
      ensures !Linked(H, NextBlock(H, s), l[i])
    {
      assert Flight(H, s)[n + 1 + i] == l[i].previusHash;
    }
  }

  /** Then the miner's block is the next. */
  lemma RoundIsNext(H: Hash, s: State, now: Time, proof: U64)
    requires s.chain != [] && FirstLinked(H, Tip(s.chain), s.mined) == |s.mined| && Tip(s.chain).time <= now
    ensures var open := RoundOpen(s, now, proof);
            var c := s.(pending := [], miner := Removed(open));
            && Next(H, c) < |InHand(H, c)|
            && Appended(H, c) == State(s.chain + [Closed(H, open)], [], [], Idle)
  {
    hide BlockHash, Linked, FirstLinked;
    var open := RoundOpen(s, now, proof);
    LinksUp(H, Tip(s.chain), s.pending, now, proof);
    FirstLinkedSnoc(H, Tip(s.chain), s.mined, Closed(H, open));
    assert InHand(H, s.(pending := [], miner := Removed(open))) == s.mined + [Closed(H, open)];
  }

  /** That run puts the next block on the chain, and then t with everything else that was pending. */
  lemma SecondPaymentChain(H: Hash, s: State, t: Transaction, now: Time, proof: U64)
    requires s.chain != [] && InOrder(H, s) && BetweenRounds(H, s)
    requires Step(H, s, Tx(t)) != s && NextBlock(H, s).time <= now
    ensures var r := SecondPaymentRun(H, s, t, now, proof);
            && r.chain == NextChain(H, s) + [Tip(r.chain)] && Tip(r.chain).tl == s.pending + [t]
            && r.pending == [] && r.mined == [] && r.miner == Idle
  {
    hide BlockHash, Linked, FirstLinked, Drain, Run, Enough, AppendNext, Mine;
    var a := Step(H, s, Tx(t));
    assert a == s.(pending := s.pending + [t]) && InHand(H, a) == InHand(H, s);
    AppendsNext(H, a);
    var b := Appended(H, a);
    assert b == Appended(H, s).(pending := a.pending) && Tip(b.chain) == NextBlock(H, s);
    RestIsStale(H, s);
    MineTakesAll(H, b, now, proof);
    RoundIsNext(H, b, now, proof);
    AppendsNext(H, b.(pending := [], miner := Removed(RoundOpen(b, now, proof))));
  }

  /**
   What the sender's balance comes to: what it is with the next block, what the others that
   were pending pay him, and his own payment. He is overdrawn exactly when that is negative,
   and only when he could not afford the payment after the next block.
   */
  lemma SecondPaymentBalance(A: seq<CString>, H: Hash, s: State, t: Transaction, now: Time, proof: U64)
    requires PrefixFree(A) && Safe(A, H, s) && KnownTx(A, t) && t.sender != []
    requires BetweenRounds(H, s) && Step(H, s, Tx(t)) != s && NextBlock(H, s).time <= now
    ensures var c := SecondPaymentRun(H, s, t, now, proof).chain;
            var received := TlDelta(t.sender, s.pending) + if t.receiver == t.sender then t.amount else 0;
            && 0 <= received
            && Balance(t.sender, c) == Balance(t.sender, NextChain(H, s)) + received - t.amount
            && (Balance(t.sender, c) < 0 <==> Balance(t.sender, NextChain(H, s)) + received < t.amount)
            && (Balance(t.sender, c) < 0 ==> !Affords(H, s, t))
  {
    hide PrefixFree, Balance, TlDelta, Next, InHand, NextChain, InOrder, SecondPaymentRun, Solvent, DistinctSenders, KnownTx;
    SecondPaymentChain(H, s, t, now, proof);
    AdmittedIsCovered(A, H, s, t);
    var c := SecondPaymentRun(H, s, t, now, proof).chain;
    BalanceSnoc(t.sender, NextChain(H, s), Tip(c));
    DeltaSnoc(t.sender, s.pending, t);
    KnownSender(A, t);
    NonSendersKeep(A, t.sender, s.pending);
    OwnDelta(A, t);
  }

  lemma DeltaSnoc(a: CString, l: seq<Transaction>, t: Transaction)
    ensures TlDelta(a, l + [t]) == TlDelta(a, l) + TxDelta(a, t)
  {
    assert (l + [t])[..|l|] == l;
  }

  lemma OwnDelta(A: seq<CString>, t: Transaction)
    requires PrefixFree(A) && KnownTx(A, t) && t.sender != []
    ensures TxDelta(t.sender, t) == (if t.receiver == t.sender then t.amount else 0) - t.amount
  {
    hide PrefixFree;
    OnlyItself(A, t.sender, t.receiver);
  }

  // --- the key of the genesis block

  /** The genesis block, two people to pay, and whatever mining and the clock give. */
  datatype Case = Case(g: Block, key: CString, bob: CString, carol: CString, txTime: Time,
                       firstTime: Time, secondTime: Time, now: Time, later: Time, proof: U64, secondProof: U64)

  predicate FromGenesis(k: Case) {
    && PrefixFree([k.key, k.bob, k.carol])
    && k.g.tl == [Transaction([], k.key, REWARD, k.txTime)]
    && k.g.time <= k.now <= k.later
  }

  function ToBob(k: Case): Transaction { Transaction(k.key, k.bob, REWARD, k.firstTime) }

  function ToCarol(k: Case): Transaction { Transaction(k.key, k.carol, REWARD, k.secondTime) }

  function FirstOpen(k: Case, proof: U64): Block { Block(k.g.blockHash, [ToBob(k)], NoDigest(), proof, k.now) }

  function First(H: Hash, k: Case): Block { Closed(H, FirstOpen(k, k.proof)) }

  function SecondOpen(H: Hash, k: Case, proof: U64): Block {
    Block(First(H, k).blockHash, [ToCarol(k)], NoDigest(), proof, k.later)
  }

  function Second(H: Hash, k: Case): Block { Closed(H, SecondOpen(H, k, k.secondProof)) }

  function Events(k: Case): seq<Event> {
    [Tx(ToBob(k)), CheckSize, ReadTip(k.now), Snapshot, Remove(k.proof), Tx(ToCarol(k)), PushBlock, MinedBlock,
     CheckSize, ReadTip(k.later), Snapshot, Remove(k.secondProof), PushBlock, MinedBlock]
  }

  function StateAt(H: Hash, k: Case, i: nat): State {
    var g, b, c := k.g, First(H, k), Second(H, k);
    var bob, carol := [ToBob(k)], [ToCarol(k)];
    if i == 0 then Start([g])
    else if i == 1 then State([g], bob, [], Idle)
    else if i == 2 then State([g], bob, [], Ready)
    else if i == 3 then State([g], bob, [], HasTip(g.blockHash, k.now))
    else if i == 4 then State([g], bob, [], Mining(FirstOpen(k, 0), 1))
    else if i == 5 then State([g], [], [], Removed(FirstOpen(k, k.proof)))
    else if i == 6 then State([g], carol, [], Removed(FirstOpen(k, k.proof)))
    else if i == 7 then State([g], carol, [b], Idle)
    else if i == 8 then State([g, b], carol, [], Idle)
    else if i == 9 then State([g, b], carol, [], Ready)
    else if i == 10 then State([g, b], carol, [], HasTip(b.blockHash, k.later))
    else if i == 11 then State([g, b], carol, [], Mining(SecondOpen(H, k, 0), 1))
    else if i == 12 then State([g, b], [], [], Removed(SecondOpen(H, k, k.secondProof)))
    else if i == 13 then State([g, b], [], [c], Idle)
    else State([g, b, c], [], [], Idle)
  }

  lemma StateFollows(H: Hash, k: Case, i: nat)
    requires FromGenesis(k) && i < |Events(k)|
    ensures Step(H, StateAt(H, k, i), Events(k)[i]) == StateAt(H, k, i + 1)
  {
    hide BlockHash, Balance, Linked, PrefixFree, ValidChain, Better, Updated;
    if i == 0 || i == 5 {
      KeyHasReward(k);
    } else if i == 7 {
      LinksUp(H, k.g, [ToBob(k)], k.now, k.proof);
      assert [k.g] + [First(H, k)] == [k.g, First(H, k)];
    } else if i == 13 {
      LinksUp(H, First(H, k), [ToCarol(k)], k.later, k.secondProof);
      assert [k.g, First(H, k)] + [Second(H, k)] == [k.g, First(H, k), Second(H, k)];
    }
  }

  lemma KeyHasReward(k: Case)
    requires FromGenesis(k)
    ensures Balance(k.key, [k.g]) == REWARD && Solvent([k.key, k.bob, k.carol], [k.g])
  {
    hide Balance;
    assert k.key in [k.key, k.bob, k.carol];
    GenesisIsSolvent([k.key, k.bob, k.carol], k.key, k.g);
  }

  lemma {:induction false} RunIs(H: Hash, k: Case, i: nat)
    requires FromGenesis(k) && i <= |Events(k)|
    ensures Run(H, Start([k.g]), Events(k)[..i]) == StateAt(H, k, i)
  {
    hide Step, Events, StateAt, FromGenesis;
    if i == 0 {
      StartIs(H, k);
    } else {
      assert Events(k)[..i][..i - 1] == Events(k)[..i - 1];
      RunIs(H, k, i - 1);
      StateFollows(H, k, i - 1);
    }
  }

  lemma StartIs(H: Hash, k: Case)
    ensures StateAt(H, k, 0) == Start([k.g])
  {
  }

  lemma FinalBalances(H: Hash, k: Case)
    requires FromGenesis(k)
    ensures var b, c := First(H, k), Second(H, k);
            && Balance(k.key, [k.g, b]) == 0 && Balance(k.key, [k.g, b, c]) == 0 - REWARD
            && Balance(k.bob, [k.g, b, c]) == REWARD && Balance(k.carol, [k.g, b, c]) == REWARD
  {
    hide BlockHash, Balance, TlDelta;
    DifferentPeople(k);
    var g, b, c := k.g, First(H, k), Second(H, k);
    assert [] + [g] == [g] && [g] + [b] == [g, b] && [g, b] + [c] == [g, b, c];
    forall a | a in [k.key, k.bob, k.carol]
      ensures Balance(a, [g, b]) == TxDelta(a, g.tl[0]) + TxDelta(a, ToBob(k))
      ensures Balance(a, [g, b, c]) == Balance(a, [g, b]) + TxDelta(a, ToCarol(k))
    {
      NothingYet(a);
      SingleDelta(a, g.tl[0]);
      SingleDelta(a, ToBob(k));
      SingleDelta(a, ToCarol(k));
      BalanceSnoc(a, [], g);
      BalanceSnoc(a, [g], b);
      BalanceSnoc(a, [g, b], c);
    }
    var A := [k.key, k.bob, k.carol];
    assert k.key in A && k.bob in A && k.carol in A;
  }

  lemma NothingYet(a: CString)
    ensures Balance(a, []) == 0
  {
  }

  lemma SingleDelta(a: CString, t: Transaction)
    ensures TlDelta(a, [t]) == TxDelta(a, t)
  {
    assert [t][..0] == [];
  }

  lemma DifferentPeople(k: Case)
    requires PrefixFree([k.key, k.bob, k.carol])
    ensures !(k.key <= k.bob) && !(k.key <= k.carol) && !(k.bob <= k.key)
    ensures !(k.bob <= k.carol) && !(k.carol <= k.key) && !(k.carol <= k.bob)
    ensures k.key != [] && k.bob != [] && k.carol != []
  {
    var A := [k.key, k.bob, k.carol];
    assert A[0] == k.key && A[1] == k.bob && A[2] == k.carol;
    assert A[0] in A && A[1] in A && A[2] in A;
  }

  lemma OnlyTheSecondAdmission(H: Hash, k: Case, i: nat)
    requires FromGenesis(k) && i < |Events(k)|
    ensures Granted([k.key, k.bob, k.carol], H, StateAt(H, k, i), Events(k)[i]) <==> i != 5
  {
    hide BlockHash, Linked, Balance, PrefixFree, FirstLinked;
    StateFollows(H, k, i);
    if i == 5 {
      FinalBalances(H, k);
      LinksUp(H, k.g, [ToBob(k)], k.now, k.proof);
      FirstInHand(H, k);
    }
  }

  lemma FirstInHand(H: Hash, k: Case)
    requires Linked(H, k.g, First(H, k))
    ensures var s := StateAt(H, k, 5); Next(H, s) == 0 && InHand(H, s) == [First(H, k)]
    ensures NextChain(H, StateAt(H, k, 5)) == [k.g, First(H, k)]
  {
    hide BlockHash, Linked;
    assert [k.g] + [First(H, k)] == [k.g, First(H, k)];
  }

  /** Two valid blocks later the key is at minus the reward. */
  predicate SpentTwice(H: Hash, k: Case, c: seq<Block>) {
    && ValidChain(H, c) && c == [k.g, First(H, k), Second(H, k)]
    && Balance(k.key, c) == 0 - REWARD && Money(k.key, c) == U64_LIMIT - REWARD
  }

  predicate GrantedAt(H: Hash, k: Case, i: nat)
    requires i < |Events(k)|
  {
    Granted([k.key, k.bob, k.carol], H, Run(H, Start([k.g]), Events(k)[..i]), Events(k)[i])
  }

  /**
   From every genesis block, with whatever proofs and times: the key pays the whole reward
   twice. Both blocks are valid and appended by the node itself; the key's balance is minus the
   reward and amountMoney answers 2^64 less the reward. Of the conditions of Overdraft the run
   breaks one, once: the second payment is admitted while the first is in the miner's hand.
   */
  lemma KeySpendsTwice(H: Hash, k: Case)
    requires FromGenesis(k)
    ensures SpentTwice(H, k, Run(H, Start([k.g]), Events(k)).chain) && Solvent([k.key, k.bob, k.carol], [k.g])
    ensures forall i | 0 <= i < |Events(k)| :: GrantedAt(H, k, i) <==> i != 5
  {
    hide Granted, Step, First, Second, Linked, FromGenesis, Solvent;
    assert Events(k)[..|Events(k)|] == Events(k);
    RunIs(H, k, |Events(k)|);
    FinalBalances(H, k);
    RunProgress(H, Start([k.g]), Events(k));
    KeyHasReward(k);
    forall i | 0 <= i < |Events(k)|
      ensures GrantedAt(H, k, i) <==> i != 5
    {
      RunIs(H, k, i);
      OnlyTheSecondAdmission(H, k, i);
    }
  }
}
