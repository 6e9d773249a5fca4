/**
 The list of pending transactions over whole runs: one transaction for each sender, an
 adoption that filters it in order, and the miner's removal of what it had copied.
 */
module PendingRuns {
  import opened Bytes
  import opened Transactions
  import opened Blocks
  import opened Ledger
  import opened Protocol
  import opened ChainRuns

  predicate DistinctSenders(l: seq<Transaction>) {
    forall i, j | 0 <= i < j < |l| :: l[i].sender != l[j].sender
  }

  /** updateTlWithBc works through a list from front to back and on each part by itself. */
  lemma {:induction false} UpdatedAppends(a: seq<Transaction>, b: seq<Transaction>, c: seq<Block>)
    ensures Updated(a + b, c) == Updated(a, c) + Updated(b, c)
  {
    hide Keeps;
    if b == [] {
      assert a + b == a;
    } else {
      var front := b[..|b| - 1];
      assert (a + b)[..|a + b| - 1] == a + front;
      UpdatedAppends(a, front, c);
    }
  }

  /** It keeps exactly the transactions that are uncommitted and covered. */
  lemma {:induction false} UpdatedKeeps(l: seq<Transaction>, c: seq<Block>)
    ensures forall t :: t in Updated(l, c) <==> t in l && Keeps(t, c)
    ensures |Updated(l, c)| <= |l|
    ensures |Updated(l, c)| == |l| ==> Updated(l, c) == l
  {
    hide Keeps;
    if l != [] {
      var front, last := l[..|l| - 1], l[|l| - 1];
      UpdatedKeeps(front, c);
      assert l == front + [last];
    }
  }

  lemma DistinctSnoc(l: seq<Transaction>, t: Transaction)
    ensures DistinctSenders(l + [t]) <==> DistinctSenders(l) && !Sent(t.sender, l)
  {
    var m := l + [t];
    assert m[|l|] == t;
    if DistinctSenders(m) {
      forall i, j | 0 <= i < j < |l|
        ensures l[i].sender != l[j].sender
      {
        assert m[i].sender != m[j].sender;
      }
      forall u | u in l
        ensures u.sender != t.sender
      {
        var i :| 0 <= i < |l| && l[i] == u;
        assert m[i].sender != m[|l|].sender;
      }
    }
  }

  lemma {:induction false} DistinctUpdated(l: seq<Transaction>, c: seq<Block>)
    requires DistinctSenders(l)
    ensures DistinctSenders(Updated(l, c))
  {
    hide Keeps, DistinctSenders, Sent;
    if l == [] {
      NoneDistinct();
    } else {
      var front, last := l[..|l| - 1], l[|l| - 1];
      assert front + [last] == l;
      DistinctSnoc(front, last);
      DistinctUpdated(front, c);
      UpdatedKeeps(front, c);
      SentIn(last.sender, Updated(front, c), front);
      DistinctSnoc(Updated(front, c), last);
      assert Updated(l, c) == if Keeps(last, c) then Updated(front, c) + [last] else Updated(front, c);
    }
  }

  lemma NoneDistinct()
    ensures DistinctSenders([])
  {
  }

  lemma SentIn(address: CString, l: seq<Transaction>, m: seq<Transaction>)
    requires forall t :: t in l ==> t in m
    ensures Sent(address, l) ==> Sent(address, m)
  {
  }

  lemma DistinctStep(H: Hash, s: State, e: Event)
    requires s.chain != [] && DistinctSenders(s.pending)
    ensures DistinctSenders(Step(H, s, e).pending)
  {
    hide ValidChain, Linked, Updated, Enough, Sent, BlockHash;
    match e
    case Tx(t) => DistinctSnoc(s.pending, t);
    case ChainMessage(c) => DistinctUpdated(s.pending, c);
    case _ =>
  }

  /** In every run the senders of the pending transactions are pairwise distinct. */
  lemma {:induction false} SendersDistinct(H: Hash, chain: seq<Block>, events: seq<Event>)
    requires chain != []
    ensures DistinctSenders(Run(H, Start(chain), events).pending)
  {
    hide Step, DistinctSenders;
    if events == [] {
      NoneDistinct();
    } else {
      var front := events[..|events| - 1];
      SendersDistinct(H, chain, front);
      DistinctStep(H, Run(H, Start(chain), front), events[|events| - 1]);
    }
  }

  /**
   The pending list between the miner's copy and its removal, cut in two: what is left
   of the copied transactions, and what came later.
   */
  datatype Cut = Cut(copied: seq<Transaction>, later: seq<Transaction>)

  function CutStep(H: Hash, s: State, p: Cut, e: Event): Cut
    requires s.chain != []
  {
    match e
    case Tx(t) => if Step(H, s, e) == s then p else p.(later := p.later + [t])
    case ChainMessage(c) => if Adopts(H, s.chain, c) then Cut(Updated(p.copied, c), Updated(p.later, c)) else p
    case _ => p
  }

  function CutRun(H: Hash, s: State, p: Cut, events: seq<Event>): Cut
    requires s.chain != []
  {
    if events == [] then p else
      var front := events[..|events| - 1];
      CutStep(H, Run(H, s, front), CutRun(H, s, p, front), events[|events| - 1])
  }

  predicate NoRemoval(events: seq<Event>) {
    forall k | 0 <= k < |events| :: !events[k].Remove?
  }

  /** The k-th event replaces the chain. */
  predicate AdoptsAt(H: Hash, s: State, events: seq<Event>, k: nat)
    requires s.chain != [] && k < |events|
  {
    events[k].ChainMessage? && Adopts(H, Run(H, s, events[..k]).chain, events[k].c)
  }

  predicate NoAdoption(H: Hash, s: State, events: seq<Event>)
    requires s.chain != []
  {
    forall k | 0 <= k < |events| :: !AdoptsAt(H, s, events, k)
  }

  lemma CutStepInv(H: Hash, s: State, p: Cut, e: Event)
    requires s.chain != [] && s.miner.Mining? && !e.Remove? && s.pending == p.copied + p.later
    ensures var r, q := Step(H, s, e), CutStep(H, s, p, e);
            && r.miner == s.miner && r.pending == q.copied + q.later
            && |q.copied| <= |p.copied|
  {
    hide ValidChain, Linked, Updated, Enough, Sent, BlockHash;
    match e
    case Tx(t) =>
      assert s.pending + [t] == p.copied + (p.later + [t]);
      assert s.pending + [t] != s.pending;
    case ChainMessage(c) =>
      UpdatedAppends(p.copied, p.later, c);
      UpdatedKeeps(p.copied, c);
    case _ =>
  }

  lemma {:induction false} CutRunInv(H: Hash, s: State, p: Cut, events: seq<Event>)
    requires s.chain != [] && s.miner.Mining? && NoRemoval(events) && s.pending == p.copied + p.later
    ensures var r, q := Run(H, s, events), CutRun(H, s, p, events);
            && r.miner == s.miner && r.pending == q.copied + q.later
            && |q.copied| <= |p.copied|
  {
    hide Step, CutStep;
    if events != [] {
      var front := events[..|events| - 1];
      CutRunInv(H, s, p, front);
      CutStepInv(H, Run(H, s, front), CutRun(H, s, p, front), events[|events| - 1]);
    }
  }

  /** The miner copies the list in s, events happen, and it removes as many as it copied. */
  function Removal(H: Hash, s: State, events: seq<Event>, proof: U64): State
    requires s.chain != []
  {
    Step(H, Run(H, Step(H, s, Snapshot), events), Remove(proof))
  }

  function CutAtRemoval(H: Hash, s: State, events: seq<Event>): Cut
    requires s.chain != []
  {
    CutRun(H, Step(H, s, Snapshot), Cut(s.pending, []), events)
  }

  /**
   After the removal nothing is left of what had been copied. It also takes one later
   transaction for each copied one that an adoption had dropped in between, so the later
   ones all survive exactly when the adoptions dropped none, or there are none.
   */
  lemma RemovalTakes(H: Hash, s: State, events: seq<Event>, proof: U64)
    requires s.chain != [] && s.miner.HasTip? && NoRemoval(events)
    ensures var r, q := Removal(H, s, events, proof), CutAtRemoval(H, s, events);
            && |q.copied| <= |s.pending|
            && r.pending == DropFirst(q.later, |s.pending| - |q.copied|)
            && (r.pending == q.later <==> |q.copied| == |s.pending| || q.later == [])
            && r.miner == Removed(Block(s.miner.previusHash, s.pending, NoDigest(), proof, s.miner.time))
  {
    hide Enough, Updated, ValidChain, Linked, BlockHash, Admit, Receive, TakeMined, CutRun, NoRemoval;
    var start := Step(H, s, Snapshot);
    CutRunInv(H, start, Cut(s.pending, []), events);
  }

  /** Between copy and removal a copied transaction stays pending as long as each adopted chain keeps it. */
  lemma {:induction false} CopiedSurvive(H: Hash, s: State, p: Cut, events: seq<Event>, t: Transaction)
    requires s.chain != []
    ensures t in CutRun(H, s, p, events).copied
       <==> t in p.copied && forall k | 0 <= k < |events| && AdoptsAt(H, s, events, k) :: Keeps(t, events[k].c)
  {
    hide Keeps, Adopts, Step, Updated;
    if events != [] {
      var n := |events| - 1;
      CopiedSurvive(H, s, p, events[..n], t);
      forall k | 0 <= k < n
        ensures AdoptsAt(H, s, events[..n], k) <==> AdoptsAt(H, s, events, k)
      {
        assert events[..n][..k] == events[..k];
      }
      if AdoptsAt(H, s, events, n) {
        UpdatedKeeps(CutRun(H, s, p, events[..n]).copied, events[n].c);
      }
    }
  }

  /** The transactions that were admitted, in order. */
  function Admitted(H: Hash, s: State, events: seq<Event>): seq<Transaction>
    requires s.chain != []
  {
    if events == [] then [] else
      var front, last := events[..|events| - 1], events[|events| - 1];
      Admitted(H, s, front) + if last.Tx? && Step(H, Run(H, s, front), last) != Run(H, s, front) then [last.t] else []
  }

  lemma {:induction false} WithoutAdoption(H: Hash, s: State, p: Cut, events: seq<Event>)
    requires s.chain != [] && NoAdoption(H, s, events)
    ensures CutRun(H, s, p, events) == Cut(p.copied, p.later + Admitted(H, s, events))
  {
    hide Adopts, Step;
    if events != [] {
      var n := |events| - 1;
      forall k | 0 <= k < n
        ensures !AdoptsAt(H, s, events[..n], k)
      {
        assert events[..n][..k] == events[..k];
        assert !AdoptsAt(H, s, events, k);
      }
      WithoutAdoption(H, s, p, events[..n]);
      assert !AdoptsAt(H, s, events, n);
    }
  }

  /** In a run, every copied transaction still pending at the removal is gone after it. */
  lemma CopiedAreGone(H: Hash, chain: seq<Block>, before: seq<Event>, events: seq<Event>, proof: U64, t: Transaction)
    requires chain != [] && NoRemoval(events)
    requires var s := Run(H, Start(chain), before);
             s.miner.HasTip? && t in CutAtRemoval(H, s, events).copied
    ensures t !in Removal(H, Run(H, Start(chain), before), events, proof).pending
  {
    hide Step, CutRun, DropFirst;
    var s := Run(H, Start(chain), before);
    var start := Step(H, s, Snapshot);
    var q := CutAtRemoval(H, s, events);
    RemovalTakes(H, s, events, proof);
    SnapshotStep(H, s);
    CutRunInv(H, start, Cut(s.pending, []), events);
    RunSplits(H, Start(chain), before, [Snapshot]);
    assert Run(H, s, []) == s;
    assert Run(H, s, [Snapshot]) == start;
    RunSplits(H, Start(chain), before + [Snapshot], events);
    SendersDistinct(H, chain, before + [Snapshot] + events);
    DroppedAway(q.copied, q.later, |s.pending| - |q.copied|, t);
  }

  lemma SnapshotStep(H: Hash, s: State)
    requires s.chain != [] && s.miner.HasTip?
    ensures Step(H, s, Snapshot).pending == s.pending && Step(H, s, Snapshot).miner.Mining?
  {
    hide BlockHash;
  }

  lemma DroppedAway(copied: seq<Transaction>, later: seq<Transaction>, n: nat, t: Transaction)
    requires DistinctSenders(copied + later) && t in copied
    ensures t !in DropFirst(later, n)
  {
    var i :| 0 <= i < |copied| && copied[i] == t;
    forall j | 0 <= j < |later|
      ensures later[j] != t
    {
      assert (copied + later)[i].sender != (copied + later)[|copied| + j].sender;
    }
  }

  /** Without an adoption in between, exactly the copied transactions go and later ones stay in order. */
  lemma RemovalIsExact(H: Hash, s: State, events: seq<Event>, proof: U64)
    requires s.chain != [] && s.miner.HasTip? && NoRemoval(events)
    requires NoAdoption(H, Step(H, s, Snapshot), events)
    ensures Run(H, Step(H, s, Snapshot), events).pending == s.pending + Admitted(H, Step(H, s, Snapshot), events)
    ensures Removal(H, s, events, proof).pending == Admitted(H, Step(H, s, Snapshot), events)
  {
    hide Step, NoAdoption, CutRun, NoRemoval;
    var start := Step(H, s, Snapshot);
    SnapshotStep(H, s);
    WithoutAdoption(H, start, Cut(s.pending, []), events);
    CutRunInv(H, start, Cut(s.pending, []), events);
    RemovalTakes(H, s, events, proof);
  }
}
