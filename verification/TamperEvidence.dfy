/**
 What the tip hash of a valid chain commits to. Two chains with one tip hash either
 agree after the genesis block or hand over two different strings with one digest.
 */
module TamperEvidence {
  import opened Bytes
  import opened Transactions
  import opened Blocks
  import opened Ledger

  datatype Evidence = Agree | Collision(x: CString, y: CString)

  /** Compares the two strings hashed for a block with those hashed for another. */
  function CompareBlocks(H: Hash, a: Block, b: Block): Evidence {
    if Preimage(H, a) != Preimage(H, b) then Collision(Preimage(H, a), Preimage(H, b))
    else if TlText(a.tl) != TlText(b.tl) then Collision(TlText(a.tl), TlText(b.tl))
    else Agree
  }

  /** Walks two chains of one length back from their tips. */
  function CompareChains(H: Hash, c: seq<Block>, d: seq<Block>): Evidence
    requires |c| == |d|
  {
    if |c| <= 1 then Agree
    else
      var last := CompareBlocks(H, Tip(c), Tip(d));
      if last.Collision? then last else CompareChains(H, c[..|c| - 1], d[..|d| - 1])
  }

  /** The fields of a block keep the widths at which its two strings are unambiguous. */
  predicate FixedBlock(len: nat, b: Block) {
    AllFixed(len, b.tl) && TimeFits(b.time)
  }

  predicate FixedChain(len: nat, c: seq<Block>) {
    forall i | 1 <= i < |c| :: FixedBlock(len, c[i])
  }

  /** A string hashed while checking the chain. */
  predicate Hashed(H: Hash, c: seq<Block>, s: CString) {
    exists i | 1 <= i < |c| :: s == Preimage(H, c[i]) || s == TlText(c[i].tl)
  }

  lemma BlocksAgree(H: Hash, len: nat, a: Block, b: Block)
    requires FixedBlock(len, a) && FixedBlock(len, b)
    requires a.blockHash == b.blockHash == BlockHash(H, a) == BlockHash(H, b)
    ensures match CompareBlocks(H, a, b)
            case Agree => a == b
            case Collision(x, y) => x != y && H(x) == H(y)
  {
    if Preimage(H, a) == Preimage(H, b) {
      PreimageInjective(H, a, b);
      if TlText(a.tl) == TlText(b.tl) {
        TlTextInjective(len, a.tl, b.tl);
      }
    }
  }

  lemma {:induction false} TipHashCommits(H: Hash, len: nat, c: seq<Block>, d: seq<Block>)
    requires c != [] && |c| == |d| && ValidChain(H, c) && ValidChain(H, d)
    requires FixedChain(len, c) && FixedChain(len, d)
    requires Tip(c).blockHash == Tip(d).blockHash
    ensures match CompareChains(H, c, d)
            case Agree => c[1..] == d[1..] && c[0].blockHash == d[0].blockHash
            case Collision(x, y) => x != y && H(x) == H(y) && Hashed(H, c, x) && Hashed(H, d, y)
  {
    hide Preimage, BlockHash, FixedBlock, CompareBlocks, Hashed;
    var n := |c| - 1;
    if n > 0 {
      assert Linked(H, c[n - 1], c[n]) && Linked(H, d[n - 1], d[n]);
      BlocksAgree(H, len, c[n], d[n]);
      ComparedIsHashed(H, c, d, n);
      if CompareBlocks(H, c[n], d[n]).Agree? {
        TipHashCommits(H, len, c[..n], d[..n]);
        assert c[1..] == c[..n][1..] + [c[n]] && d[1..] == d[..n][1..] + [d[n]];
        match CompareChains(H, c[..n], d[..n])
        case Agree =>
        case Collision(x, y) =>
          HashedInPrefix(H, c, n, x);
          HashedInPrefix(H, d, n, y);
      }
    }
  }

  lemma ComparedIsHashed(H: Hash, c: seq<Block>, d: seq<Block>, n: nat)
    requires 1 <= n < |c| == |d|
    ensures var e := CompareBlocks(H, c[n], d[n]); e.Collision? ==> Hashed(H, c, e.x) && Hashed(H, d, e.y)
  {
  }

  lemma HashedInPrefix(H: Hash, c: seq<Block>, n: nat, s: CString)
    requires n <= |c| && Hashed(H, c[..n], s)
    ensures Hashed(H, c, s)
  {
    var i :| 1 <= i < n && (s == Preimage(H, c[..n][i]) || s == TlText(c[..n][i].tl));
    assert c[..n][i] == c[i];
  }

  /**
   The genesis block itself is covered only through its blockHash field: any other block
   with that field, and a time that is not later than the next one's, passes in its place.
   */
  lemma GenesisIsExchangeable(H: Hash, c: seq<Block>, g: Block)
    requires c != [] && ValidChain(H, c)
    ensures ValidChain(H, [g] + c[1..])
       <==> |c| == 1 || (g.blockHash == c[0].blockHash && g.time <= c[1].time)
  {
    var d := [g] + c[1..];
    assert forall i | 1 <= i < |c| :: d[i] == c[i];
    if |c| > 1 {
      assert Linked(H, c[0], c[1]);
      assert Linked(H, d[0], d[1]) <==> g.blockHash == c[0].blockHash && g.time <= c[1].time;
      forall i | 2 <= i < |c|
        ensures Linked(H, d[i - 1], d[i])
      {
        assert Linked(H, c[i - 1], c[i]);
      }
    }
  }

  /** Nor does the tip hash say how long the chain is: a block that the first one links to can stand before it. */
  lemma LengthIsNotCommitted(H: Hash, c: seq<Block>, f: Block)
    requires c != []
    ensures ValidChain(H, [f] + c) <==> ValidChain(H, c) && Linked(H, f, c[0])
    ensures Tip([f] + c).blockHash == Tip(c).blockHash
  {
    var d := [f] + c;
    assert forall i | 0 <= i < |c| :: d[i + 1] == c[i];
    if ValidChain(H, d) {
      assert Linked(H, d[0], d[1]);
      forall i | 1 <= i < |c|
        ensures Linked(H, c[i - 1], c[i])
      {
        assert Linked(H, d[i], d[i + 1]);
      }
    }
    if ValidChain(H, c) && Linked(H, f, c[0]) {
      forall i | 1 <= i < |d|
        ensures Linked(H, d[i - 1], d[i])
      {
        assert i > 1 ==> Linked(H, c[i - 2], c[i - 1]);
      }
    }
  }
}
