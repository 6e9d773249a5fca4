/** The node's shared structures and the code that runs on them, proved against the state machine. */
module Node {
  import opened Bytes
  import opened Transactions
  import opened Blocks
  import opened Ledger
  import opened Blockchain
  import opened Protocol
  import opened AdoptionSteps
  import opened Codec
  import opened CodecMethods

  class Node {
    const H: Hash
    const bc: Chain
    const txs: TransactionsList
    var mined: seq<Block>
    var miner: Miner
    var adopting: bool       // the main loop holds bc_m.mutex, and the list is still to be filtered

    ghost predicate Valid()
      reads this, bc, txs
    {
      bc.H == H && bc.blocks != [] && txs.Valid()
    }

    ghost function Abs(): State
      requires Valid()
      reads this, bc, txs, txs.transactions
    {
      State(bc.blocks, txs.Contents(), mined, miner)
    }

    ghost function At(): Moment
      requires Valid()
      reads this, bc, txs, txs.transactions
    {
      Moment(Abs(), adopting)
    }

    // the start of gestion, with the chain that was made or loaded
    constructor (H: Hash, chain: seq<Block>)
      requires chain != []
      ensures Valid() && this.H == H && Abs() == State(chain, [], [], Idle) && !adopting
      ensures fresh(bc) && fresh(txs) && fresh(txs.transactions)
    {
      this.H := H;
      bc := new Chain(H, chain);
      txs := new TransactionsList();
      mined := [];
      miner := Idle;
      adopting := false;
    }

    // a transaction read from the network or from the API
    method OnTransaction(t: Transaction) returns (accepted: bool)
      requires Valid() && !adopting
      modifies txs, txs.transactions
      ensures Valid() && Abs() == Step(H, old(Abs()), Tx(t))
      ensures txs.Contents() == if accepted then old(txs.Contents()) + [t] else old(txs.Contents())
      ensures accepted <==>
                && (forall u | u in old(txs.Contents()) :: u.sender != t.sender)
                && t.amount <= Balance(t.sender, bc.blocks) % U64_LIMIT
      ensures txs.transactions == old(txs.transactions) || fresh(txs.transactions)
    {
      accepted := false;
      var hassended := txs.HasSended(t.sender);
      if !hassended {
        var hasenough := bc.EnoughMoney(t.sender, t.amount);
        if hasenough {
          txs.Add(t);
          accepted := true;
        }
      }
    }

    // a TYPE_BLOCKCHAIN message, on data that holds all the decoder reads: the chain is replaced under bc_m.mutex
    method ReplaceChain(data: seq<Byte>) returns (adopted: bool)
      requires Valid() && !adopting && DecodeChain(data).Some?
      modifies `adopting, bc
      ensures Valid() && At() == FineStep(H, old(At()), Replace(DecodeChain(data).value))
      ensures adopted <==> Adopts(H, old(bc.blocks), DecodeChain(data).value)
      ensures adopting == adopted && bc.blocks == if adopted then DecodeChain(data).value else old(bc.blocks)
      ensures ValidChain(H, DecodeChain(data).value) ==>
                (adopted <==>
                  var c := DecodeChain(data).value;
                  |old(bc.blocks)| < |c| || (|c| == |old(bc.blocks)| && Tip(c).time < Tip(old(bc.blocks)).time))
      ensures adopted ==> ValidChain(H, DecodeChain(data).value)
    {
      hide Linked, Updated;
      adopted := false;
      var c := BinToBlockchain(data);
      var received := new Chain(H, c);
      var res := received.Check();
      if res == 0 {
        if |bc.blocks| == |c| {
          var lastCur, lastNew := bc.blocks[|bc.blocks| - 1], c[|c| - 1];
          adopted := lastNew.time < lastCur.time;
        } else {
          adopted := |bc.blocks| < |c|;
        }
        if adopted {
          bc.blocks := c;
          adopting := true;
        }
      }
    }

    // the list is filtered by the new chain, under txs_temp_m.mutex besides
    method FilterList()
      requires Valid() && adopting
      modifies `adopting, txs
      ensures Valid() && At() == FineStep(H, old(At()), Filter)
      ensures forall t :: t in txs.Contents() <==>
                && t in old(txs.Contents())
                && (forall i | 1 <= i < |bc.blocks| :: t !in bc.blocks[i].tl)
                && t.amount <= Balance(t.sender, bc.blocks) % U64_LIMIT
      ensures fresh(txs.transactions)
    {
      hide Updated;
      bc.UpdateTl(txs);
      adopting := false;
    }

    // both, with nothing of the miner in between
    method OnBlockchain(data: seq<Byte>) returns (adopted: bool)
      requires Valid() && !adopting && DecodeChain(data).Some?
      modifies `adopting, bc, txs
      ensures Valid() && !adopting && Abs() == Step(H, old(Abs()), ChainMessage(DecodeChain(data).value))
      ensures adopted <==> Adopts(H, old(bc.blocks), DecodeChain(data).value)
      ensures txs.transactions == old(txs.transactions) || fresh(txs.transactions)
    {
      hide Linked, Updated;
      adopted := ReplaceChain(data);
      if adopted {
        FilterList();
      }
    }

    // a block from the mining thread
    method OnMinedBlock() returns (success: bool)
      requires Valid() && !adopting
      modifies `mined, bc
      ensures Valid() && Abs() == Step(H, old(Abs()), MinedBlock)
      ensures success <==> old(mined) != [] && Linked(H, Tip(old(bc.blocks)), old(mined)[0])
    {
      success := false;
      if mined != [] {
        var b := mined[0];
        mined := mined[1..];
        success := bc.AddBlock(b);
      }
    }

    // mining: the size of the list is tested, without its mutex
    method MinerCheckSize()
      requires Valid()
      modifies `miner
      ensures Valid() && Abs() == Step(H, old(Abs()), CheckSize)
    {
      if miner.Idle? && txs.size != 0 {
        miner := Ready;
      }
    }

    // mining: the tip is read under bc_m.mutex and the block stamped
    method MinerReadTip(now: Time)
      requires Valid() && !adopting
      modifies `miner
      ensures Valid() && Abs() == Step(H, old(Abs()), ReadTip(now))
    {
      if miner.Ready? {
        var lastBlock := bc.blocks[|bc.blocks| - 1];
        miner := HasTip(lastBlock.blockHash, now);
      }
    }

    // mining: the list is copied with addTx
    method MinerSnapshot()
      requires Valid()
      modifies `miner
      ensures Valid() && Abs() == Step(H, old(Abs()), Snapshot)
    {
      if miner.HasTip? {
        var tl := new TransactionsList();
        tl.AddRange(txs, 0, txs.size);
        assert tl.Contents() == txs.Contents();
        miner := Mining(Block(miner.previusHash, tl.transactions[..tl.size], NoDigest(), 0, miner.time), txs.size);
      }
    }

    // mining: the copied transactions are taken off the list once the proof is found
    method MinerRemove(proof: U64)
      requires Valid()
      modifies `miner, txs
      ensures Valid() && Abs() == Step(H, old(Abs()), Remove(proof))
      ensures txs.transactions == old(txs.transactions) || fresh(txs.transactions)
    {
      hide Admit, Receive, TakeMined, BlockHash;
      if miner.Mining? {
        RemovesFirst(txs.Contents(), miner.count);
        txs.Remove(0, miner.count);
        miner := Removed(miner.block.(proof := proof));
      }
    }

    // mining: the block is hashed and queued
    method MinerPush()
      requires Valid()
      modifies `mined, `miner
      ensures Valid() && Abs() == Step(H, old(Abs()), PushBlock)
    {
      if miner.Removed? {
        var block := miner.block;
        var newHash := GetHash(H, block);
        mined := mined + [block.(blockHash := newHash)];
        miner := Idle;
      }
    }
  }
}
