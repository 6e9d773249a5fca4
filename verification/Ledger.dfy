/** What the node means by a valid chain, a committed transaction and a balance. */
module Ledger {
  import opened Bytes
  import opened Transactions
  import opened Blocks

  /** The three conditions that addBlock and checkBlockchain put on a block and the one before it. */
  predicate Linked(H: Hash, prev: Block, cur: Block) {
    prev.time <= cur.time && cur.previusHash == prev.blockHash && cur.blockHash == BlockHash(H, cur)
  }

  predicate ValidChain(H: Hash, c: seq<Block>) {
    forall i | 1 <= i < |c| :: Linked(H, c[i - 1], c[i])
  }

  lemma ValidChainExactly(H: Hash, c: seq<Block>)
    ensures ValidChain(H, c) <==> forall i | 1 <= i < |c| ::
              c[i - 1].time <= c[i].time && c[i].previusHash == c[i - 1].blockHash && c[i].blockHash == BlockHash(H, c[i])
  {
    hide BlockHash;
    if ValidChain(H, c) {
      forall i | 1 <= i < |c|
        ensures c[i - 1].time <= c[i].time && c[i].previusHash == c[i - 1].blockHash && c[i].blockHash == BlockHash(H, c[i])
      {
        assert Linked(H, c[i - 1], c[i]);
      }
    }
  }

  function Tip(c: seq<Block>): Block
    requires c != []
  {
    c[|c| - 1]
  }

  /** findTxsInBc starts at block 1, so what the genesis block pays is never "in" the chain. */
  predicate Committed(t: Transaction, c: seq<Block>) {
    exists i | 1 <= i < |c| :: t in c[i].tl
  }

  /** What one transaction adds to an address, with the prefix comparison of amountMoney. */
  function TxDelta(address: CString, t: Transaction): int {
    (if address <= t.receiver then t.amount else 0) - (if address <= t.sender then t.amount else 0)
  }

  function TlDelta(address: CString, tl: seq<Transaction>): int {
    if tl == [] then 0 else TlDelta(address, tl[..|tl| - 1]) + TxDelta(address, tl[|tl| - 1])
  }

  /** The true balance, a signed number of any size. */
  function Balance(address: CString, c: seq<Block>): int {
    if c == [] then 0 else Balance(address, c[..|c| - 1]) + TlDelta(address, c[|c| - 1].tl)
  }

  /** What amountMoney answers: the true balance modulo 2^64. */
  function Money(address: CString, c: seq<Block>): U64 {
    Balance(address, c) % U64_LIMIT
  }

  predicate Enough(address: CString, amount: U64, c: seq<Block>) {
    amount <= Money(address, c)
  }

  /** What updateTlWithBc keeps. */
  predicate Keeps(t: Transaction, c: seq<Block>) {
    !Committed(t, c) && Enough(t.sender, t.amount, c)
  }

  function Updated(tl: seq<Transaction>, c: seq<Block>): seq<Transaction> {
    if tl == [] then [] else
      var last := tl[|tl| - 1];
      Updated(tl[..|tl| - 1], c) + if Keeps(last, c) then [last] else []
  }

  lemma KeepsExactly(t: Transaction, c: seq<Block>)
    ensures Keeps(t, c) <==>
              && (forall i | 1 <= i < |c| :: t !in c[i].tl)
              && t.amount <= Balance(t.sender, c) % U64_LIMIT
  {
  }

  /** What is left is what was there, is in no block behind the first, and is covered. */
  lemma {:induction false} UpdatedMembers(tl: seq<Transaction>, c: seq<Block>)
    ensures forall t :: t in Updated(tl, c) <==>
              && t in tl
              && (forall i | 1 <= i < |c| :: t !in c[i].tl)
              && t.amount <= Balance(t.sender, c) % U64_LIMIT
  {
    hide Keeps;
    if tl != [] {
      UpdatedMembers(tl[..|tl| - 1], c);
      KeepsExactly(tl[|tl| - 1], c);
    }
  }

  lemma BalanceSnoc(address: CString, c: seq<Block>, b: Block)
    ensures Balance(address, c + [b]) == Balance(address, c) + TlDelta(address, b.tl)
  {
    assert (c + [b])[..|c|] == c;
  }

  /** One more transaction pays its receiver and charges its sender, if the address begins theirs. */
  lemma TlDeltaSnoc(address: CString, l: seq<Transaction>, t: Transaction)
    ensures TlDelta(address, []) == 0
    ensures TlDelta(address, l + [t]) == TlDelta(address, l)
            + (if address <= t.receiver then t.amount else 0) - (if address <= t.sender then t.amount else 0)
  {
    assert (l + [t])[..|l|] == l;
  }

  lemma ValidChainSnoc(H: Hash, c: seq<Block>, b: Block)
    requires c != []
    ensures ValidChain(H, c + [b]) <==> ValidChain(H, c) && Linked(H, Tip(c), b)
  {
    var d := c + [b];
    assert d[|c| - 1] == Tip(c) && d[|c|] == b;
    assert forall i | 0 <= i < |c| :: d[i] == c[i];
    if ValidChain(H, d) {
      forall i | 1 <= i < |c|
        ensures Linked(H, c[i - 1], c[i])
      {
        assert Linked(H, d[i - 1], d[i]);
      }
      assert Linked(H, d[|c| - 1], d[|c|]);
    }
  }
}
