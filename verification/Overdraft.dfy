/**
 When the node never lets anybody spend more than he has. The balance test at admission
 looks at the chain alone, and the test for a pending transaction at the list alone. A
 transaction that the miner has taken off the list is in neither until its block is appended.
 */
module Overdraft {
  import opened Bytes
  import opened Transactions
  import opened Blocks
  import opened Ledger
  import opened Protocol
  import opened Conservation
  import opened ChainRuns
  import opened PendingRuns

  /** Every true balance is nonnegative and no sum of money can reach 2^64. */
  predicate Solvent(A: seq<CString>, c: seq<Block>) {
    && KnownChain(A, c) && Minted(c) < U64_LIMIT
    && forall a | a in A :: 0 <= Balance(a, c)
  }

  predicate Covered(l: seq<Transaction>, c: seq<Block>) {
    forall t | t in l :: t.amount <= Balance(t.sender, c)
  }

  /** A list whose transfers can all be made from the balances of the chain. */
  predicate Payable(A: seq<CString>, l: seq<Transaction>, c: seq<Block>) {
    KnownTl(A, l) && DistinctSenders(l) && Covered(l, c)
  }

  predicate Apart(l: seq<Transaction>, m: seq<Transaction>) {
    forall t, u | t in l && u in m :: t.sender != u.sender
  }

  /** The block as it is queued. */
  function Closed(H: Hash, b: Block): Block {
    b.(blockHash := BlockHash(H, b))
  }

  /**
   The blocks whose transactions have left the pending list and are not on the chain, in the
   order in which the main loop will see them.
   */
  function InHand(H: Hash, s: State): seq<Block> {
    s.mined + if s.miner.Removed? then [Closed(H, s.miner.block)] else []
  }

  /** The place of the first block that links to the tip, or the length of the list. */
  function FirstLinked(H: Hash, tip: Block, l: seq<Block>): (i: nat)
    ensures i <= |l| && (i < |l| ==> Linked(H, tip, l[i]))
    ensures forall j | 0 <= j < i :: !Linked(H, tip, l[j])
  {
    if l == [] || Linked(H, tip, l[0]) then 0 else 1 + FirstLinked(H, tip, l[1..])
  }

  /** The place of the block that will be appended, if the chain is not replaced before. */
  function Next(H: Hash, s: State): (i: nat)
    requires s.chain != []
    ensures i <= |InHand(H, s)|
  {
    FirstLinked(H, Tip(s.chain), InHand(H, s))
  }

  /** The chain with that block. */
  function NextChain(H: Hash, s: State): seq<Block>
    requires s.chain != []
  {
    if Next(H, s) < |InHand(H, s)| then s.chain + [InHand(H, s)[Next(H, s)]] else s.chain
  }

  /** The block that will be appended can be paid for, and leaves the pending transactions covered. */
  predicate NextSafe(A: seq<CString>, H: Hash, s: State)
    requires s.chain != []
  {
    Next(H, s) < |InHand(H, s)| ==>
      Payable(A, InHand(H, s)[Next(H, s)].tl, s.chain) && Covered(s.pending, NextChain(H, s))
  }

  predicate MiningSafe(s: State)
    requires s.chain != []
  {
    s.miner.Mining? && s.miner.block.previusHash == Tip(s.chain).blockHash
    ==> s.miner.block.tl <= s.pending && s.miner.count == |s.miner.block.tl|
  }

  function Parents(l: seq<Block>): (r: seq<Digest>)
    ensures |r| == |l|
  {
    seq(|l|, i requires 0 <= i < |l| => l[i].previusHash)
  }

  /** The previous blocks of everything in flight, the oldest first: the blocks in hand, and the one to come. */
  function Flight(H: Hash, s: State): seq<Digest> {
    Parents(InHand(H, s)) +
    match s.miner
    case HasTip(previusHash, _) => [previusHash]
    case Mining(block, _) => [block.previusHash]
    case _ => []
  }

  /** From the first element that is d on, all are. */
  predicate Trailing(l: seq<Digest>, d: Digest) {
    forall i, j | 0 <= i < j < |l| && l[i] == d :: l[j] == d
  }

  /** What stands on the tip is younger than what does not. */
  predicate InOrder(H: Hash, s: State)
    requires s.chain != []
  {
    Trailing(Flight(H, s), Tip(s.chain).blockHash)
  }

  predicate Safe(A: seq<CString>, H: Hash, s: State) {
    && s.chain != [] && Solvent(A, s.chain) && Payable(A, s.pending, s.chain)
    && MiningSafe(s) && NextSafe(A, H, s) && InOrder(H, s)
  }

  /** No block in hand, or being mined, stands on the given tip. */
  predicate NoneOn(H: Hash, s: State, tip: Digest) {
    && (forall i | 0 <= i < |InHand(H, s)| :: InHand(H, s)[i].previusHash != tip)
    && (s.miner.Mining? ==> s.miner.block.previusHash != tip)
  }

  /** The sender can pay even after the block that is about to be appended. */
  predicate Affords(H: Hash, s: State, t: Transaction)
    requires s.chain != []
  {
    Next(H, s) < |InHand(H, s)| ==> t.amount <= Balance(t.sender, NextChain(H, s))
  }

  /**
   What is asked of transactions and of foreign chains: what is admitted is between addresses
   of A and affordable after the block in hand, and chains that are adopted are solvent.
   */
  predicate Honest(A: seq<CString>, H: Hash, s: State, e: Event)
    requires s.chain != []
  {
    match e
    case Tx(t) => Step(H, s, e) != s ==> KnownTx(A, t) && Affords(H, s, t)
    case ChainMessage(c) => Adopts(H, s.chain, c) ==> Solvent(A, c)
    case _ => true
  }

  /** A block that is appended is not its own previous block, unless nothing else in flight stands there. */
  predicate NoLoop(H: Hash, s: State, e: Event)
    requires s.chain != []
  {
    e.MinedBlock? && s.mined != [] && Linked(H, Tip(s.chain), s.mined[0]) && s.mined[0].blockHash == s.mined[0].previusHash
    ==> NoneOn(H, Step(H, s, e), s.mined[0].blockHash)
  }

  /** What must be granted at each step; besides, no adopted tip is the previous block of a block in flight. */
  predicate Granted(A: seq<CString>, H: Hash, s: State, e: Event)
    requires s.chain != []
  {
    && Honest(A, H, s, e) && NoLoop(H, s, e)
    && (e.ChainMessage? && Adopts(H, s.chain, e.c) ==> NoneOn(H, s, Tip(e.c).blockHash))
  }

  predicate AllGranted(A: seq<CString>, H: Hash, s: State, events: seq<Event>)
    requires s.chain != []
  {
    forall k | 0 <= k < |events| :: Granted(A, H, Run(H, s, events[..k]), events[k])
  }

  // --- balances under one block

  /** In a prefix-free set amountMoney's comparison picks out the address itself. */
  lemma OnlyItself(A: seq<CString>, a: CString, sender: CString)
    requires PrefixFree(A) && a in A && (sender == [] || sender in A)
    ensures a <= sender <==> a == sender
  {
    var i :| 0 <= i < |A| && A[i] == a;
    if sender != [] {
      var j :| 0 <= j < |A| && A[j] == sender;
      assert i != j ==> !(A[i] <= A[j]);
    }
  }

  /** Nobody who sends nothing in a list loses by it. */
  lemma {:induction false} NonSendersKeep(A: seq<CString>, a: CString, l: seq<Transaction>)
    requires PrefixFree(A) && a in A && KnownTl(A, l) && !Sent(a, l)
    ensures TlDelta(a, l) >= 0
  {
    if l != [] {
      var last := l[|l| - 1];
      assert last in l && KnownTx(A, last);
      NonSendersKeep(A, a, l[..|l| - 1]);
      OnlyItself(A, a, last.sender);
    }
  }

  /** A sender of one transaction loses at most its amount. */
  lemma {:induction false} SendersLoseOnce(A: seq<CString>, a: CString, l: seq<Transaction>, c: seq<Block>)
    requires PrefixFree(A) && a in A && Payable(A, l, c) && 0 <= Balance(a, c)
    ensures 0 <= Balance(a, c) + TlDelta(a, l)
  {
    hide Balance, KnownTx;
    if l != [] {
      var front, last := l[..|l| - 1], l[|l| - 1];
      assert front + [last] == l && last in l;
      DistinctSnoc(front, last);
      if last.sender == a {
        NonSendersKeep(A, a, front);
      } else {
        LastIsAnother(A, a, last);
        SendersLoseOnce(A, a, front, c);
      }
    }
  }

  lemma LastIsAnother(A: seq<CString>, a: CString, t: Transaction)
    requires PrefixFree(A) && a in A && KnownTx(A, t) && t.sender != a
    ensures TxDelta(a, t) >= 0
  {
    OnlyItself(A, a, t.sender);
  }

  lemma {:induction false} NothingMinted(A: seq<CString>, l: seq<Transaction>, c: seq<Block>)
    requires Covered(l, c)
    ensures MintedTl(l) == 0
  {
    if l != [] {
      assert l[|l| - 1] in l;
      EmptyAddressHasNothing(c);
      NothingMinted(A, l[..|l| - 1], c);
    }
  }

  /** A payable block leaves the chain solvent. */
  lemma PayableBlockKeepsSolvent(A: seq<CString>, c: seq<Block>, b: Block)
    requires PrefixFree(A) && Solvent(A, c) && Payable(A, b.tl, c)
    ensures Solvent(A, c + [b])
  {
    hide Balance, KnownTl, PrefixFree, DistinctSenders, Covered, Minted, MintedTl, TlDelta;
    forall a | a in A
      ensures 0 <= Balance(a, c + [b])
    {
      BalanceSnoc(a, c, b);
      SendersLoseOnce(A, a, b.tl, c);
    }
    MintedSnoc(c, b);
    NothingMinted(A, b.tl, c);
  }

  lemma MintedSnoc(c: seq<Block>, b: Block)
    ensures Minted(c + [b]) == Minted(c) + MintedTl(b.tl)
  {
    assert (c + [b])[..|c|] == c;
  }

  /** Transactions of others stay covered. */
  lemma OthersStayCovered(A: seq<CString>, l: seq<Transaction>, c: seq<Block>, b: Block)
    requires PrefixFree(A) && Payable(A, l, c) && KnownTl(A, b.tl) && Apart(b.tl, l)
    ensures Covered(l, c + [b])
  {
    hide Balance, PrefixFree, DistinctSenders, TlDelta;
    forall t | t in l
      ensures t.amount <= Balance(t.sender, c + [b])
    {
      assert KnownTx(A, t);
      BalanceSnoc(t.sender, c, b);
      if t.sender == [] {
        EmptyTlDelta(b.tl);
      } else {
        NonSendersKeep(A, t.sender, b.tl);
      }
    }
  }

  /** On a solvent chain amountMoney answers the true balance. */
  lemma SolventMoney(A: seq<CString>, c: seq<Block>, a: CString)
    requires PrefixFree(A) && Solvent(A, c) && (a in A || a == [])
    ensures Money(a, c) == Balance(a, c)
  {
    hide Balance, KnownTl, PrefixFree, Minted;
    if a == [] {
      EmptyAddressHasNothing(c);
    } else {
      MoneyIsExact(A, c, a);
    }
  }

  // --- one lemma for each kind of step

  /** Which block is next does not depend on what is not linked to the tip. */
  lemma NextWhenNoneOn(H: Hash, s: State)
    requires s.chain != [] && NoneOn(H, s, Tip(s.chain).blockHash)
    ensures Next(H, s) == |InHand(H, s)|
  {
    hide BlockHash;
  }

  /** With nothing older on the tip, the one tip that the miner may have read is in order. */
  lemma NoneOnIsInOrder(H: Hash, s: State)
    requires s.chain != [] && NoneOn(H, s, Tip(s.chain).blockHash)
    ensures InOrder(H, s)
  {
    hide InHand;
    var d := Tip(s.chain).blockHash;
    forall i | 0 <= i < |InHand(H, s)|
      ensures Flight(H, s)[i] != d
    {
      assert Flight(H, s)[i] == InHand(H, s)[i].previusHash;
    }
  }

  /** All that is in flight with a block that is appended stands on the old tip, and so not on the new one. */
  lemma AppendClears(H: Hash, s: State)
    requires s.chain != [] && InOrder(H, s) && NoLoop(H, s, MinedBlock)
    requires s.mined != [] && Linked(H, Tip(s.chain), s.mined[0])
    ensures NoneOn(H, Step(H, s, MinedBlock), s.mined[0].blockHash)
  {
    hide BlockHash;
    var r, tip := Step(H, s, MinedBlock), Tip(s.chain).blockHash;
    assert InHand(H, s)[0] == s.mined[0] && InHand(H, r) == InHand(H, s)[1..];
    assert Flight(H, s)[0] == tip;
    forall i | 0 <= i < |InHand(H, r)|
      ensures InHand(H, r)[i].previusHash == tip
    {
      assert Flight(H, s)[i + 1] == InHand(H, s)[i + 1].previusHash;
    }
    if s.miner.Mining? {
      assert Flight(H, s)[|InHand(H, s)|] == s.miner.block.previusHash;
    }
  }

  /** The miner's own steps only add the tip at the end. */
  lemma MinerKeepsOrder(H: Hash, s: State, e: Event)
    requires s.chain != [] && InOrder(H, s) && !e.ChainMessage? && !e.MinedBlock?
    ensures InOrder(H, Step(H, s, e))
  {
    hide BlockHash, Enough;
    var r, tip := Step(H, s, e), Tip(s.chain).blockHash;
    if e.ReadTip? && s.miner.Ready? {
      assert Flight(H, r) == Flight(H, s) + [tip];
    } else if e.Remove? && s.miner.Mining? {
      assert InHand(H, r) == InHand(H, s) + [Closed(H, s.miner.block.(proof := e.proof))];
      assert Flight(H, r) == Flight(H, s);
    } else {
      assert Flight(H, r) == Flight(H, s);
    }
  }

  lemma FirstLinkedSnoc(H: Hash, tip: Block, l: seq<Block>, b: Block)
    ensures FirstLinked(H, tip, l) < |l| ==> FirstLinked(H, tip, l + [b]) == FirstLinked(H, tip, l)
    ensures FirstLinked(H, tip, l) == |l| ==> FirstLinked(H, tip, l + [b]) == if Linked(H, tip, b) then |l| else |l| + 1
  {
    hide Linked;
    var i, j := FirstLinked(H, tip, l), FirstLinked(H, tip, l + [b]);
    assert forall k | 0 <= k < |l| :: (l + [b])[k] == l[k];
    assert (l + [b])[|l|] == b;
    if i < |l| {
      assert Linked(H, tip, (l + [b])[i]);
    } else {
      forall k | 0 <= k < |l|
        ensures !Linked(H, tip, (l + [b])[k])
      {
      }
    }
  }

  lemma TxKeepsSafe(A: seq<CString>, H: Hash, s: State, t: Transaction)
    requires PrefixFree(A) && Safe(A, H, s) && Granted(A, H, s, Tx(t))
    ensures Safe(A, H, Step(H, s, Tx(t)))
  {
    hide Balance, PrefixFree, DistinctSenders, Solvent, KnownTx, Linked, BlockHash, InOrder;
    var r := Step(H, s, Tx(t));
    if r != s {
      DistinctSnoc(s.pending, t);
      AdmittedIsCovered(A, H, s, t);
      MinerKeepsOrder(H, s, Tx(t));
      assert InHand(H, r) == InHand(H, s) && NextChain(H, r) == NextChain(H, s);
    }
  }

  lemma AdmittedIsCovered(A: seq<CString>, H: Hash, s: State, t: Transaction)
    requires PrefixFree(A) && s.chain != [] && Solvent(A, s.chain) && KnownTx(A, t) && Step(H, s, Tx(t)) != s
    ensures t.amount <= Balance(t.sender, s.chain) && Step(H, s, Tx(t)) == s.(pending := s.pending + [t])
    ensures !Sent(t.sender, s.pending)
  {
    hide Balance, PrefixFree, Solvent, KnownTx;
    KnownSender(A, t);
    SolventMoney(A, s.chain, t.sender);
  }

  lemma KnownSender(A: seq<CString>, t: Transaction)
    requires KnownTx(A, t)
    ensures t.sender == [] || t.sender in A
  {
  }

  /** An adoption keeps every transaction that the new chain still covers. */
  lemma ChainKeepsSafe(A: seq<CString>, H: Hash, s: State, c: seq<Block>)
    requires PrefixFree(A) && Safe(A, H, s) && Granted(A, H, s, ChainMessage(c))
    ensures Safe(A, H, Step(H, s, ChainMessage(c)))
  {
    hide Balance, PrefixFree, DistinctSenders, Solvent, KnownTx, ValidChain, Updated, Committed, Next, BlockHash, InOrder;
    if Adopts(H, s.chain, c) {
      var r := Step(H, s, ChainMessage(c));
      assert InHand(H, r) == InHand(H, s);
      NextWhenNoneOn(H, r);
      NoneOnIsInOrder(H, r);
      UpdatedKeeps(s.pending, c);
      DistinctUpdated(s.pending, c);
      forall t | t in Updated(s.pending, c)
        ensures t.amount <= Balance(t.sender, c)
      {
        KnownSender(A, t);
        SolventMoney(A, c, t.sender);
      }
    }
  }

  lemma MinedKeepsSafe(A: seq<CString>, H: Hash, s: State)
    requires PrefixFree(A) && Safe(A, H, s) && Granted(A, H, s, MinedBlock)
    ensures Safe(A, H, Step(H, s, MinedBlock))
  {
    hide Payable, PrefixFree, Solvent, Linked, BlockHash;
    var r := Step(H, s, MinedBlock);
    if s.mined != [] {
      var b := s.mined[0];
      assert InHand(H, s)[0] == b && InHand(H, r) == InHand(H, s)[1..];
      if Linked(H, Tip(s.chain), b) {
        assert Next(H, s) == 0 && r.chain == NextChain(H, s);
        PayableBlockKeepsSolvent(A, s.chain, b);
        StaysPayable(A, s.pending, s.chain, r.chain);
        assert Tip(r.chain) == b;
        AppendClears(H, s);
        NextWhenNoneOn(H, r);
        NoneOnIsInOrder(H, r);
      } else {
        NotLinkedGoes(H, s);
        assert Flight(H, r) == Flight(H, s)[1..];
      }
    }
  }

  lemma StaysPayable(A: seq<CString>, l: seq<Transaction>, c: seq<Block>, d: seq<Block>)
    requires Payable(A, l, c) && Covered(l, d)
    ensures Payable(A, l, d)
  {
  }

  /** Taking a block that does not link leaves the next one what it was. */
  lemma NotLinkedGoes(H: Hash, s: State)
    requires s.chain != [] && s.mined != [] && !Linked(H, Tip(s.chain), s.mined[0])
    ensures var r := Step(H, s, MinedBlock);
            && r == s.(mined := s.mined[1..]) && InHand(H, r) == InHand(H, s)[1..]
            && Next(H, s) == Next(H, r) + 1 && NextChain(H, r) == NextChain(H, s)
  {
    hide Linked, BlockHash;
    assert InHand(H, s)[0] == s.mined[0];
    assert InHand(H, Step(H, s, MinedBlock)) == InHand(H, s)[1..];
  }

  lemma RemoveKeepsSafe(A: seq<CString>, H: Hash, s: State, proof: U64)
    requires PrefixFree(A) && Safe(A, H, s) && s.miner.Mining?
    ensures Safe(A, H, Step(H, s, Remove(proof)))
  {
    hide PrefixFree, Solvent, BlockHash, Payable, Covered, FirstLinked, InOrder;
    var r := Step(H, s, Remove(proof));
    MinerKeepsOrder(H, s, Remove(proof));
    var b := Closed(H, s.miner.block.(proof := proof));
    SuffixPayable(A, s.pending, s.chain, NextChain(H, s), s.miner.count);
    FirstLinkedSnoc(H, Tip(s.chain), s.mined, b);
    assert InHand(H, s) == s.mined && InHand(H, r) == s.mined + [b];
    if Next(H, s) < |s.mined| {
      assert NextChain(H, r) == NextChain(H, s);
    } else if Linked(H, Tip(s.chain), b) {
      PrefixPayable(A, b.tl, s.pending, s.chain);
      OthersStayCovered(A, r.pending, s.chain, b);
    }
  }

  lemma SuffixPayable(A: seq<CString>, l: seq<Transaction>, c: seq<Block>, d: seq<Block>, n: nat)
    requires Payable(A, l, c)
    ensures Payable(A, DropFirst(l, n), c)
    ensures Covered(l, d) ==> Covered(DropFirst(l, n), d)
  {
    hide Balance, KnownTx;
    assert forall t :: t in DropFirst(l, n) ==> t in l;
  }

  lemma PrefixPayable(A: seq<CString>, p: seq<Transaction>, l: seq<Transaction>, c: seq<Block>)
    requires Payable(A, l, c) && p <= l
    ensures Payable(A, p, c) && KnownTl(A, p) && Apart(p, DropFirst(l, |p|))
  {
    hide Balance, KnownTx;
    forall i | 0 <= i < |p|
      ensures p[i] == l[i] && p[i] in l
    {
    }
  }

  lemma MinerKeepsSafe(A: seq<CString>, H: Hash, s: State, e: Event)
    requires PrefixFree(A) && Safe(A, H, s) && (e.CheckSize? || e.ReadTip? || e.Snapshot? || e.PushBlock?)
    ensures Safe(A, H, Step(H, s, e))
  {
    hide PrefixFree, Solvent, BlockHash, Payable, Covered, Linked, FirstLinked, InOrder;
    MinerKeepsOrder(H, s, e);
    assert InHand(H, Step(H, s, e)) == InHand(H, s);
  }

  lemma StepKeepsSafe(A: seq<CString>, H: Hash, s: State, e: Event)
    requires PrefixFree(A) && Safe(A, H, s) && Granted(A, H, s, e)
    ensures Safe(A, H, Step(H, s, e))
  {
    hide PrefixFree, Safe;
    match e
    case Tx(t) => TxKeepsSafe(A, H, s, t);
    case ChainMessage(c) => ChainKeepsSafe(A, H, s, c);
    case MinedBlock => MinedKeepsSafe(A, H, s);
    case Remove(proof) => if s.miner.Mining? { RemoveKeepsSafe(A, H, s, proof); }
    case _ => MinerKeepsSafe(A, H, s, e);
  }

  lemma {:induction false} RunKeepsSafe(A: seq<CString>, H: Hash, s: State, events: seq<Event>)
    requires s.chain != [] && PrefixFree(A) && Safe(A, H, s) && AllGranted(A, H, s, events)
    ensures Safe(A, H, Run(H, s, events))
  {
    hide PrefixFree, Safe, Step, Granted;
    if events != [] {
      var n := |events| - 1;
      forall k | 0 <= k < n
        ensures Granted(A, H, Run(H, s, events[..n][..k]), events[..n][k])
      {
        assert events[..n][..k] == events[..k];
      }
      RunKeepsSafe(A, H, s, events[..n]);
      assert Granted(A, H, Run(H, s, events[..n]), events[n]);
      StepKeepsSafe(A, H, Run(H, s, events[..n]), events[n]);
    }
  }

  lemma StartsSafe(A: seq<CString>, H: Hash, chain: seq<Block>)
    requires chain != [] && Solvent(A, chain)
    ensures Safe(A, H, Start(chain))
  {
    hide Solvent;
    NoneDistinct();
  }

  /**
   Over whole runs, granted those conditions, the chain never takes anybody below zero,
   amountMoney never answers a wrapped value, and every pending transaction is covered.
   */
  lemma NoOverdraft(A: seq<CString>, H: Hash, chain: seq<Block>, events: seq<Event>)
    requires PrefixFree(A) && chain != [] && Solvent(A, chain)
    requires AllGranted(A, H, Start(chain), events)
    ensures var s := Run(H, Start(chain), events);
            && (forall a | a in A :: 0 <= Balance(a, s.chain) == Money(a, s.chain))
            && (forall t | t in s.pending :: t.amount <= Balance(t.sender, s.chain) && Enough(t.sender, t.amount, s.chain))
  {
    hide PrefixFree, Balance, Run, Granted, KnownChain, NextSafe;
    StartsSafe(A, H, chain);
    RunKeepsSafe(A, H, Start(chain), events);
    var s := Run(H, Start(chain), events);
    forall a | a in A
      ensures Money(a, s.chain) == Balance(a, s.chain)
    {
      SolventMoney(A, s.chain, a);
    }
    forall t | t in s.pending
      ensures Money(t.sender, s.chain) == Balance(t.sender, s.chain)
    {
      KnownSender(A, t);
      SolventMoney(A, s.chain, t.sender);
    }
  }

  // --- what the condition on admissions is worth

  /** It holds of everybody who has nothing in the block that is about to be appended. */
  lemma NothingInHandAffords(A: seq<CString>, H: Hash, s: State, t: Transaction)
    requires PrefixFree(A) && Safe(A, H, s) && KnownTx(A, t) && Step(H, s, Tx(t)) != s
    requires Next(H, s) < |InHand(H, s)| ==> !Sent(t.sender, InHand(H, s)[Next(H, s)].tl)
    ensures Affords(H, s, t)
  {
    hide Balance, PrefixFree, Solvent, KnownTx, TlDelta, DistinctSenders, Next, InHand;
    AdmittedIsCovered(A, H, s, t);
    KnownSender(A, t);
    if Next(H, s) < |InHand(H, s)| {
      var b := InHand(H, s)[Next(H, s)];
      BalanceSnoc(t.sender, s.chain, b);
      if t.sender == [] {
        EmptyTlDelta(b.tl);
      } else {
        NonSendersKeep(A, t.sender, b.tl);
      }
    }
  }

  /** n blocks are taken from the queue. */
  function Takes(n: nat): (events: seq<Event>)
    ensures |events| == n && forall k | 0 <= k < n :: events[k] == MinedBlock
  {
    seq(n, _ => MinedBlock)
  }

  lemma {:induction false} UnlinkedGo(H: Hash, s: State, n: nat)
    requires s.chain != [] && n <= |s.mined| && n <= Next(H, s)
    ensures Run(H, s, Takes(n)) == s.(mined := s.mined[n..])
    ensures Next(H, s.(mined := s.mined[n..])) + n == Next(H, s)
  {
    hide Step, Linked, BlockHash, FirstLinked;
    if n > 0 {
      UnlinkedGo(H, s, n - 1);
      assert Takes(n)[..n - 1] == Takes(n - 1);
      var r := s.(mined := s.mined[n - 1..]);
      assert InHand(H, r)[0] == r.mined[0];
      NotFirst(H, r);
      NotLinkedGoes(H, r);
    }
  }

  lemma NotFirst(H: Hash, s: State)
    requires s.chain != [] && s.mined != [] && 0 < Next(H, s)
    ensures !Linked(H, Tip(s.chain), s.mined[0])
  {
    hide Linked, BlockHash;
    assert InHand(H, s)[0] == s.mined[0];
  }

  /** The miner hands over what it has, and the main loop takes the blocks before the next that links. */
  function Drain(H: Hash, s: State): seq<Event>
    requires s.chain != []
  {
    (if s.miner.Removed? then [PushBlock] else []) + Takes(Next(H, s))
  }

  /** s after that. */
  function Drained(H: Hash, s: State): State
    requires s.chain != []
  {
    State(s.chain, s.pending, InHand(H, s)[Next(H, s)..], if s.miner.Removed? then Idle else s.miner)
  }

  lemma PushKeepsHand(H: Hash, s: State)
    requires s.chain != [] && s.miner.Removed?
    ensures var r := Step(H, s, PushBlock);
            && r == s.(mined := InHand(H, s), miner := Idle) && InHand(H, r) == InHand(H, s)
            && Next(H, r) == Next(H, s) && Drained(H, r) == Drained(H, s)
  {
    hide Linked, BlockHash, FirstLinked;
    var r := Step(H, s, PushBlock);
    assert InHand(H, r) == InHand(H, s);
  }

  lemma TakesGranted(A: seq<CString>, H: Hash, s: State)
    requires s.chain != [] && Next(H, s) <= |s.mined|
    ensures AllGranted(A, H, s, Takes(Next(H, s)))
  {
    hide Linked, BlockHash, FirstLinked, Step, Run;
    var n := Next(H, s);
    var all := Takes(n);
    forall k | 0 <= k < |all|
      ensures Granted(A, H, Run(H, s, all[..k]), all[k])
    {
      assert all[..k] == Takes(k);
      UnlinkedGo(H, s, k);
      NotFirst(H, s.(mined := s.mined[k..]));
    }
  }

  lemma {:induction false} DrainRuns(A: seq<CString>, H: Hash, s: State)
    requires s.chain != []
    ensures Run(H, s, Drain(H, s)) == Drained(H, s) && AllGranted(A, H, s, Drain(H, s))
    decreases s.miner.Removed?
  {
    hide Linked, BlockHash, FirstLinked, Step, Run, Granted, AllGranted, Takes;
    var takes := Takes(Next(H, s));
    if s.miner.Removed? {
      var r := Step(H, s, PushBlock);
      PushKeepsHand(H, s);
      DrainRuns(A, H, r);
      assert [] + takes == takes;
      GrantedAfterPush(A, H, s, takes);
      RunSplits(H, s, [PushBlock], takes);
      RunEmpty(H, s);
      RunSnoc(H, s, [], PushBlock);
      assert [] + [PushBlock] == [PushBlock];
    } else {
      UnlinkedGo(H, s, Next(H, s));
      TakesGranted(A, H, s);
      assert [] + takes == takes;
    }
  }

  lemma GrantedAfterPush(A: seq<CString>, H: Hash, s: State, events: seq<Event>)
    requires s.chain != [] && AllGranted(A, H, Step(H, s, PushBlock), events)
    ensures AllGranted(A, H, s, [PushBlock] + events)
  {
    hide Step;
    var all := [PushBlock] + events;
    assert Run(H, s, []) == s && Run(H, s, [PushBlock]) == Step(H, s, PushBlock);
    forall k | 0 <= k < |all|
      ensures Granted(A, H, Run(H, s, all[..k]), all[k])
    {
      if k > 0 {
        assert all[..k] == [PushBlock] + events[..k - 1];
        RunSplits(H, s, [PushBlock], events[..k - 1]);
        assert Granted(A, H, Run(H, Step(H, s, PushBlock), events[..k - 1]), events[k - 1]);
      }
    }
  }

  lemma DrainedAppends(H: Hash, s: State)
    requires s.chain != [] && Next(H, s) < |InHand(H, s)|
    ensures var r := Step(H, Drained(H, s), MinedBlock); r.chain == NextChain(H, s) && r.pending == s.pending
  {
    hide BlockHash;
    var d := Drained(H, s);
    assert d.mined[0] == InHand(H, s)[Next(H, s)];
  }

  ghost predicate CoveredAfter(H: Hash, s: State, e: Event)
    requires s.chain != []
  {
    Covered(Step(H, s, e).pending, Step(H, s, e).chain)
  }

  /**
   Whatever happens, as long as it is granted, every pending transaction is covered; of the
   last event nothing is asked about tips.
   */
  ghost predicate AlwaysCovered(A: seq<CString>, H: Hash, s: State)
    requires s.chain != []
  {
    forall events, e | AllGranted(A, H, s, events) && Honest(A, H, Run(H, s, events), e) ::
      CoveredAfter(H, Run(H, s, events), e)
  }

  /** Being covered after a step takes no condition on tips. */
  lemma HonestStepCovers(A: seq<CString>, H: Hash, s: State, e: Event)
    requires PrefixFree(A) && Safe(A, H, s) && Honest(A, H, s, e)
    ensures CoveredAfter(H, s, e)
  {
    hide Balance, PrefixFree, Solvent, KnownTx, ValidChain, Updated, Better, Linked, BlockHash, FirstLinked, Next;
    match e
    case Tx(t) => if Step(H, s, e) != s { AdmittedIsCovered(A, H, s, t); }
    case ChainMessage(c) => AdoptionCovers(A, H, s, c);
    case MinedBlock => AppendCovers(A, H, s);
    case Remove(proof) => if s.miner.Mining? { SuffixPayable(A, s.pending, s.chain, s.chain, s.miner.count); }
    case _ =>
  }

  lemma AdoptionCovers(A: seq<CString>, H: Hash, s: State, c: seq<Block>)
    requires PrefixFree(A) && s.chain != [] && Payable(A, s.pending, s.chain)
    requires Adopts(H, s.chain, c) ==> Solvent(A, c)
    ensures CoveredAfter(H, s, ChainMessage(c))
  {
    hide Balance, PrefixFree, DistinctSenders, Solvent, KnownTx, ValidChain, Updated, Committed, Better;
    if Adopts(H, s.chain, c) {
      UpdatedKeeps(s.pending, c);
      forall t | t in Updated(s.pending, c)
        ensures t.amount <= Balance(t.sender, c)
      {
        KnownSender(A, t);
        SolventMoney(A, c, t.sender);
      }
    }
  }

  lemma AppendCovers(A: seq<CString>, H: Hash, s: State)
    requires Safe(A, H, s)
    ensures CoveredAfter(H, s, MinedBlock)
  {
    hide Balance, Solvent, Payable, Linked, BlockHash;
    if s.mined != [] && Linked(H, Tip(s.chain), s.mined[0]) {
      assert InHand(H, s)[0] == s.mined[0];
      assert Next(H, s) == 0;
    } else {
      PayableIsCovered(A, s.pending, s.chain);
    }
  }

  lemma PayableIsCovered(A: seq<CString>, l: seq<Transaction>, c: seq<Block>)
    requires Payable(A, l, c)
    ensures Covered(l, c)
  {
  }

  /**
   The exact condition on an admission: from then on the pending transactions are always
   covered if and only if the sender can pay even after the block that is about to be appended.
   */
  lemma AdmissionCoversExactly(A: seq<CString>, H: Hash, s: State, t: Transaction)
    requires PrefixFree(A) && Safe(A, H, s) && KnownTx(A, t) && Step(H, s, Tx(t)) != s
    ensures AlwaysCovered(A, H, Step(H, s, Tx(t))) <==> Affords(H, s, t)
  {
    hide Balance, PrefixFree, KnownTx, Linked, BlockHash, FirstLinked, Enough, Run, AllGranted, CoveredAfter, Honest, Drain;
    var r := Step(H, s, Tx(t));
    AdmittedIsCovered(A, H, s, t);
    assert InHand(H, r) == InHand(H, s);
    if Affords(H, s, t) {
      AffordingIsGranted(A, H, s, t);
      TxKeepsSafe(A, H, s, t);
      forall events, e | AllGranted(A, H, r, events) && Honest(A, H, Run(H, r, events), e)
        ensures CoveredAfter(H, Run(H, r, events), e)
      {
        RunKeepsSafe(A, H, r, events);
        HonestStepCovers(A, H, Run(H, r, events), e);
      }
    } else {
      DrainRuns(A, H, r);
      MinedIsHonest(A, H, Drained(H, r));
      DrainedUncovers(H, r, t);
    }
  }

  lemma AffordingIsGranted(A: seq<CString>, H: Hash, s: State, t: Transaction)
    requires s.chain != [] && KnownTx(A, t) && Affords(H, s, t)
    ensures Granted(A, H, s, Tx(t))
  {
  }

  lemma MinedIsHonest(A: seq<CString>, H: Hash, s: State)
    requires s.chain != []
    ensures Honest(A, H, s, MinedBlock)
  {
  }

  lemma DrainedUncovers(H: Hash, s: State, t: Transaction)
    requires s.chain != [] && t in s.pending && Next(H, s) < |InHand(H, s)|
    requires t.amount > Balance(t.sender, NextChain(H, s))
    ensures !CoveredAfter(H, Drained(H, s), MinedBlock)
  {
    hide Balance, Linked, BlockHash, Step, Drained;
    DrainedAppends(H, s);
  }

  /** The same condition decides whether the invariant survives the admission. */
  lemma AdmissionSafeExactly(A: seq<CString>, H: Hash, s: State, t: Transaction)
    requires PrefixFree(A) && Safe(A, H, s) && KnownTx(A, t) && Step(H, s, Tx(t)) != s
    ensures Safe(A, H, Step(H, s, Tx(t))) <==> Affords(H, s, t)
  {
    hide Balance, PrefixFree, DistinctSenders, Solvent, KnownTx, Linked, BlockHash, FirstLinked;
    var r := Step(H, s, Tx(t));
    AdmittedIsCovered(A, H, s, t);
    assert InHand(H, r) == InHand(H, s) && t in r.pending;
    if Affords(H, s, t) {
      TxKeepsSafe(A, H, s, t);
    }
  }

  /**
   In one step: with a block at the head of the queue that links, an admitted transaction is
   pending after the append, and covered exactly when it was affordable after the block.
   */
  lemma HeadDecides(H: Hash, s: State, t: Transaction)
    requires s.chain != [] && s.mined != [] && Linked(H, Tip(s.chain), s.mined[0]) && Step(H, s, Tx(t)) != s
    ensures var r := Step(H, Step(H, s, Tx(t)), MinedBlock);
            t in r.pending && (t.amount <= Balance(t.sender, r.chain) <==> Affords(H, s, t))
  {
    hide Balance, BlockHash, Linked;
    assert InHand(H, s)[0] == s.mined[0];
    assert Next(H, s) == 0;
  }

  // --- the condition on tips, in terms of the chains the node has held

  /** The digest was the tip's hash at some moment of the run. */
  ghost predicate HeldTip(H: Hash, chain: seq<Block>, events: seq<Event>, d: Digest)
    requires chain != []
  {
    exists j :: 0 <= j <= |events| && Tip(Run(H, Start(chain), events[..j]).chain).blockHash == d
  }

  /** All that the miner has in hand stands on tips that the node has held. */
  ghost predicate StandsOnHeldTips(H: Hash, chain: seq<Block>, events: seq<Event>, s: State)
    requires chain != []
  {
    && (forall i | 0 <= i < |InHand(H, s)| :: HeldTip(H, chain, events, InHand(H, s)[i].previusHash))
    && (s.miner.Mining? ==> HeldTip(H, chain, events, s.miner.block.previusHash))
    && (s.miner.HasTip? ==> HeldTip(H, chain, events, s.miner.previusHash))
  }

  /** Whenever a chain is adopted, the hash of its tip is one the node has not held before. */
  ghost predicate AdoptedTipsAreNew(H: Hash, chain: seq<Block>, events: seq<Event>)
    requires chain != []
  {
    forall k | 0 <= k < |events| && events[k].ChainMessage? && Adopts(H, Run(H, Start(chain), events[..k]).chain, events[k].c) ::
      !HeldTip(H, chain, events[..k], Tip(events[k].c).blockHash)
  }

  lemma HeldTipStays(H: Hash, chain: seq<Block>, events: seq<Event>, e: Event, d: Digest)
    requires chain != [] && HeldTip(H, chain, events, d)
    ensures HeldTip(H, chain, events + [e], d)
  {
    hide Run;
    var j :| 0 <= j <= |events| && Tip(Run(H, Start(chain), events[..j]).chain).blockHash == d;
    assert (events + [e])[..j] == events[..j];
  }

  lemma TipIsHeld(H: Hash, chain: seq<Block>, events: seq<Event>)
    requires chain != []
    ensures HeldTip(H, chain, events, Tip(Run(H, Start(chain), events).chain).blockHash)
  {
    hide Run;
    assert events[..|events|] == events;
  }

  lemma HeldTipsStep(H: Hash, chain: seq<Block>, events: seq<Event>, e: Event)
    requires chain != [] && StandsOnHeldTips(H, chain, events, Run(H, Start(chain), events))
    ensures StandsOnHeldTips(H, chain, events + [e], Step(H, Run(H, Start(chain), events), e))
  {
    hide Run, HeldTip, BlockHash, Linked, ValidChain, Updated, Enough;
    var s := Run(H, Start(chain), events);
    var r := Step(H, s, e);
    TipIsHeld(H, chain, events);
    HeldTipStays(H, chain, events, e, Tip(s.chain).blockHash);
    if s.miner.HasTip? {
      HeldTipStays(H, chain, events, e, s.miner.previusHash);
    } else if s.miner.Mining? {
      HeldTipStays(H, chain, events, e, s.miner.block.previusHash);
    }
    forall i | 0 <= i < |InHand(H, s)|
      ensures HeldTip(H, chain, events + [e], InHand(H, s)[i].previusHash)
    {
      HeldTipStays(H, chain, events, e, InHand(H, s)[i].previusHash);
    }
    forall i | 0 <= i < |InHand(H, r)|
      ensures HeldTip(H, chain, events + [e], InHand(H, r)[i].previusHash)
    {
      InHandStep(H, s, e, i);
    }
  }

  /** A block in hand was in hand before, or has just been mined. */
  lemma InHandStep(H: Hash, s: State, e: Event, i: nat)
    requires s.chain != [] && i < |InHand(H, Step(H, s, e))|
    ensures var d := InHand(H, Step(H, s, e))[i].previusHash;
            || (exists j :: 0 <= j < |InHand(H, s)| && InHand(H, s)[j].previusHash == d)
            || (s.miner.Mining? && s.miner.block.previusHash == d)
  {
    hide BlockHash, Linked, ValidChain, Updated, Enough;
    var d := InHand(H, Step(H, s, e))[i].previusHash;
    if e.MinedBlock? && s.mined != [] {
      assert InHand(H, s)[i + 1].previusHash == d;
    } else if i < |InHand(H, s)| {
      assert InHand(H, s)[i].previusHash == d;
    }
  }

  lemma {:induction false} RunHeldTips(H: Hash, chain: seq<Block>, events: seq<Event>)
    requires chain != []
    ensures StandsOnHeldTips(H, chain, events, Run(H, Start(chain), events))
  {
    hide Step, HeldTip;
    if events != [] {
      var n := |events| - 1;
      RunHeldTips(H, chain, events[..n]);
      HeldTipsStep(H, chain, events[..n], events[n]);
      assert events[..n] + [events[n]] == events;
    }
  }

  lemma FreshTipGrants(A: seq<CString>, H: Hash, chain: seq<Block>, events: seq<Event>, e: Event)
    requires chain != []
    requires var s := Run(H, Start(chain), events);
             && Honest(A, H, s, e) && NoLoop(H, s, e)
             && (e.ChainMessage? && Adopts(H, s.chain, e.c) ==> !HeldTip(H, chain, events, Tip(e.c).blockHash))
    ensures Granted(A, H, Run(H, Start(chain), events), e)
  {
    hide Run, HeldTip, BlockHash, ValidChain, Honest, NoLoop;
    RunHeldTips(H, chain, events);
  }

  /**
   The same in terms of chains: what is admitted is affordable after the block in hand, adopted
   chains are solvent, and none of them brings back a tip that the node has held.
   */
  lemma NoOverdraftOnFreshTips(A: seq<CString>, H: Hash, chain: seq<Block>, events: seq<Event>)
    requires PrefixFree(A) && chain != [] && Solvent(A, chain) && AdoptedTipsAreNew(H, chain, events)
    requires forall k | 0 <= k < |events| ::
               Honest(A, H, Run(H, Start(chain), events[..k]), events[k]) && NoLoop(H, Run(H, Start(chain), events[..k]), events[k])
    ensures var s := Run(H, Start(chain), events);
            && (forall a | a in A :: 0 <= Balance(a, s.chain) == Money(a, s.chain))
            && (forall t | t in s.pending :: t.amount <= Balance(t.sender, s.chain) && Enough(t.sender, t.amount, s.chain))
  {
    hide PrefixFree, Balance, Step, Solvent, Granted, Honest, NoLoop, HeldTip, Enough;
    forall k | 0 <= k < |events|
      ensures Granted(A, H, Run(H, Start(chain), events[..k]), events[k])
    {
      FreshTipGrants(A, H, chain, events[..k], events[k]);
    }
    NoOverdraft(A, H, chain, events);
  }
}
