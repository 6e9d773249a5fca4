/** The chain of Projet/Block/blockchain.c, which grows in place, and the checks and sums over it. */
module Blockchain {
  import opened Arithmetic
  import opened Bytes
  import opened Transactions
  import opened Blocks
  import opened Ledger

  class Chain {
    const H: Hash
    var blocks: seq<Block>

    constructor (H: Hash, blocks: seq<Block>)
      ensures this.H == H && this.blocks == blocks
    {
      this.H := H;
      this.blocks := blocks;
    }

    // addBlock
    method AddBlock(block: Block) returns (added: bool)
      requires blocks != []
      modifies this
      ensures added <==> Linked(H, Tip(old(blocks)), block)
      ensures added <==> Tip(old(blocks)).time <= block.time && block.previusHash == Tip(old(blocks)).blockHash
                         && block.blockHash == BlockHash(H, block)
      ensures blocks == if added then old(blocks) + [block] else old(blocks)
      ensures old(ValidChain(H, blocks)) ==> ValidChain(H, blocks)
    {
      var lastBlock := blocks[|blocks| - 1];
      if block.time < lastBlock.time {
        return false;
      }
      if block.previusHash != lastBlock.blockHash {
        return false;
      }
      var hash := GetHash(H, block);
      if hash != block.blockHash {
        return false;
      }
      ValidChainSnoc(H, blocks, block);
      blocks := blocks + [block];
      return true;
    }

    // checkBlockchain
    method Check() returns (res: nat)
      ensures res == 0 || res == 1
      ensures res == 0 <==> ValidChain(H, blocks)
      ensures res == 0 <==> forall i | 1 <= i < |blocks| ::
                blocks[i - 1].time <= blocks[i].time && blocks[i].previusHash == blocks[i - 1].blockHash
                && blocks[i].blockHash == BlockHash(H, blocks[i])
    {
      hide BlockHash;
      ValidChainExactly(H, blocks);
      var i := 1;
      while i < |blocks|
        invariant 1 <= i && forall j | 1 <= j < i && j < |blocks| :: Linked(H, blocks[j - 1], blocks[j])
      {
        var current, prev := blocks[i], blocks[i - 1];
        var hash := GetHash(H, current);
        if current.time < prev.time {
          return 1;
        }
        if current.previusHash != prev.blockHash {
          return 1;
        }
        if current.blockHash != hash {
          return 1;
        }
        i := i + 1;
      }
      return 0;
    }

    // findTxsInBc
    method FindTxs(t: Transaction) returns (found: bool)
      ensures found <==> Committed(t, blocks)
      ensures found <==> exists i | 1 <= i < |blocks| :: t in blocks[i].tl
    {
      var i := 1;
      while i < |blocks|
        invariant 1 <= i && forall k | 1 <= k < i && k < |blocks| :: t !in blocks[k].tl
      {
        var tl := blocks[i].tl;
        for a := 0 to |tl|
          invariant t !in tl[..a]
        {
          if TxsEqual(t, tl[a]) {
            assert t in blocks[i].tl;
            return true;
          }
        }
        assert tl[..|tl|] == tl;
        i := i + 1;
      }
      return false;
    }

    // amountMoney: unsigned 64-bit subtraction and addition
    method AmountMoney(address: CString) returns (money: U64)
      ensures money == Money(address, blocks) == Balance(address, blocks) % U64_LIMIT
    {
      hide SameBytes, TxDelta;
      money := 0;
      for i := 0 to |blocks|
        invariant money == Balance(address, blocks[..i]) % U64_LIMIT
      {
        var tl := blocks[i].tl;
        ghost var start := Balance(address, blocks[..i]);
        for j := 0 to |tl|
          invariant money == (start + TlDelta(address, tl[..j])) % U64_LIMIT
        {
          var temp := tl[j];
          ghost var sum := start + TlDelta(address, tl[..j]);
          MoneyStep(address, temp, sum);
          SameBytesOverLength(address, temp.sender);
          SameBytesOverLength(address, temp.receiver);
          if SameBytes(address, temp.sender, |address|) {
            money := (money - temp.amount) % U64_LIMIT;
          }
          if SameBytes(address, temp.receiver, |address|) {
            money := (money + temp.amount) % U64_LIMIT;
          }
          assert tl[..j + 1][..j] == tl[..j];
        }
        assert tl[..|tl|] == tl;
        assert blocks[..i + 1][..i] == blocks[..i];
      }
      assert blocks[..|blocks|] == blocks;
    }

    // enoughMoney
    method EnoughMoney(address: CString, amount: U64) returns (res: bool)
      ensures res <==> Enough(address, amount, blocks)
      ensures res <==> amount <= Balance(address, blocks) % U64_LIMIT
    {
      res := true;
      var money := AmountMoney(address);
      if money < amount {
        res := false;
      }
    }

    // updateTlWithBc
    method UpdateTl(tl: TransactionsList)
      requires tl.Valid()
      modifies tl
      ensures tl.Valid() && fresh(tl.transactions)
      ensures tl.Contents() == Updated(old(tl.Contents()), blocks)
      ensures forall t :: t in tl.Contents() <==>
                && t in old(tl.Contents())
                && (forall i | 1 <= i < |blocks| :: t !in blocks[i].tl)
                && t.amount <= Balance(t.sender, blocks) % U64_LIMIT
    {
      hide Committed, Enough;
      ghost var was := tl.Contents();
      var newTl := new TransactionsList();
      for i := 0 to tl.size
        invariant tl.Valid() && tl.size == old(tl.size) && tl.transactions == old(tl.transactions) && tl.Contents() == was
        invariant newTl.Valid() && fresh(newTl) && fresh(newTl.transactions)
        invariant newTl.Contents() == Updated(was[..i], blocks)
      {
        var t := tl.transactions[i];
        assert was[..i + 1][..i] == was[..i];
        var found := FindTxs(t);
        if !found {
          var enough := EnoughMoney(t.sender, t.amount);
          if enough {
            newTl.Add(t);
          }
        }
      }
      assert was[..|was|] == was;
      UpdatedMembers(was, blocks);
      tl.transactions := newTl.transactions;
      tl.size := newTl.size;
      tl.capacity := newTl.capacity;
    }
  }

  /** One transaction in wrapping arithmetic is one transaction in the true balance. */
  lemma MoneyStep(address: CString, t: Transaction, sum: int)
    ensures var sent := if address <= t.sender then (sum % U64_LIMIT - t.amount) % U64_LIMIT else sum % U64_LIMIT;
            var money := if address <= t.receiver then (sent + t.amount) % U64_LIMIT else sent;
            money == (sum + TxDelta(address, t)) % U64_LIMIT
  {
    var amount: int := t.amount;
    ReduceEarly(sum, -amount, U64_LIMIT);
    ReduceEarly(sum - amount, amount, U64_LIMIT);
    ReduceEarly(sum, amount, U64_LIMIT);
  }
}
