/** The encoders and decoders as the C code runs them, with a cursor over a buffer. */
module CodecMethods {
  import opened Bytes
  import opened Buffers
  import opened Transactions
  import opened Blocks
  import opened Codec
  import opened RoundTrips

  /** memcpy to the cursor, and the cursor moved on. */
  method Append(bin: array<Byte>, offset: nat, part: seq<Byte>) returns (next: nat)
    requires offset + |part| <= bin.Length
    modifies bin
    ensures next == offset + |part| && bin[..next] == old(bin[..offset]) + part
  {
    Memcpy(bin, offset, part);
    next := offset + |part|;
    assert bin[..next] == (bin[..])[..next];
  }

  // txsToBin
  method TxsToBin(t: Transaction) returns (bin: array<Byte>)
    ensures fresh(bin) && bin[..] == EncodeTx(t)
  {
    hide Word8;
    var size := TxSize(t) - 8;
    bin := new Byte[size + 8];
    var offset := Append(bin, 0, Word8(size));
    offset := Append(bin, offset, Word8(|t.sender|));
    offset := Append(bin, offset, t.sender);
    offset := Append(bin, offset, Word8(|t.receiver|));
    offset := Append(bin, offset, t.receiver);
    offset := Append(bin, offset, Word8(t.amount));
    offset := Append(bin, offset, Word8(ToU64(t.time)));
    assert bin[..offset] == EncodeTx(t);
    assert bin[..offset] == bin[..];
  }

  // binToTxs, on a buffer that holds all it reads
  method BinToTxs(bin: seq<Byte>, start: nat) returns (t: Transaction)
    requires DecodeTx(bin, start).Some?
    ensures t == DecodeTx(bin, start).value
  {
    var offset := start + 8;
    var senderSize := Read8(bin, offset).value;
    offset := offset + 8;
    var sender := CutAtNul(Slice(bin, offset, offset + senderSize));
    offset := offset + senderSize;
    var receiverSize := Read8(bin, offset).value;
    offset := offset + 8;
    var receiver := CutAtNul(Slice(bin, offset, offset + receiverSize));
    offset := offset + receiverSize;
    var amount := Read8(bin, offset).value;
    offset := offset + 8;
    var time := Read8(bin, offset).value;
    t := Transaction(sender, receiver, amount, ToTime(time));
  }

  // blockToBin
  method BlockToBin(b: Block) returns (bin: array<Byte>)
    ensures fresh(bin) && bin[..] == EncodeBlock(b)
  {
    hide EncodeTx, TxSize, BlockHeader;
    var size := SizeOfBlock(b);
    bin := new Byte[size];
    var cursor := AppendHeader(bin, b);
    for i := 0 to |b.tl|
      invariant cursor == 88 + TlSize(b.tl[..i])
      invariant cursor <= bin.Length
      invariant bin[..cursor] == BlockHeader(b) + EncodeTl(b.tl[..i])
    {
      TlSizeGrows(b.tl, i);
      var txsbin := TxsToBin(b.tl[i]);
      cursor := Append(bin, cursor, txsbin[..]);
      assert b.tl[..i + 1][..i] == b.tl[..i];
      JoinBytes(BlockHeader(b), EncodeTl(b.tl[..i]), EncodeTx(b.tl[i]));
    }
    assert b.tl[..|b.tl|] == b.tl;
    assert bin[..cursor] == bin[..];
  }

  // the five fields that blockToBin writes before the transactions
  method AppendHeader(bin: array<Byte>, b: Block) returns (cursor: nat)
    requires 88 <= bin.Length
    modifies bin
    ensures cursor == 88 && bin[..cursor] == BlockHeader(b)
  {
    hide Word8;
    cursor := Append(bin, 0, Word8(|b.tl|));
    cursor := Append(bin, cursor, b.previusHash);
    cursor := Append(bin, cursor, b.blockHash);
    cursor := Append(bin, cursor, Word8(b.proof));
    cursor := Append(bin, cursor, Word8(ToU64(b.time)));
  }

  // getSizeOf_blockbin
  method SizeOfBlock(b: Block) returns (size: nat)
    ensures size == BlockSize(b)
  {
    size := 32 * 2 + 8 + 8 + 8;
    for i := 0 to |b.tl|
      invariant size == 88 + TlSize(b.tl[..i])
    {
      size := size + TxSize(b.tl[i]);
      assert b.tl[..i + 1][..i] == b.tl[..i];
    }
    assert b.tl[..|b.tl|] == b.tl;
  }

  lemma {:induction false} TlSizeGrows(tl: seq<Transaction>, i: nat)
    requires i < |tl|
    ensures TlSize(tl[..i]) + TxSize(tl[i]) <= TlSize(tl)
    decreases |tl|
  {
    var front := tl[..|tl| - 1];
    if i < |front| {
      TlSizeGrows(front, i);
      assert front[..i] == tl[..i];
    }
  }

  // binToBlock: the list is rebuilt with addTx
  method BinToBlock(bin: seq<Byte>, start: nat) returns (b: Block)
    requires DecodeBlock(bin, start).Some?
    ensures b == DecodeBlock(bin, start).value
  {
    hide DecodeTx, TxSize;
    var nbTxs := Read8(bin, start).value;
    var cursor := start + 8;
    var previusHash: Digest := bin[cursor..cursor + 32];
    cursor := cursor + 32;
    var blockHash: Digest := bin[cursor..cursor + 32];
    cursor := cursor + 32;
    var proof := Read8(bin, cursor).value;
    cursor := cursor + 8;
    var time := Read8(bin, cursor).value;
    cursor := cursor + 8;
    var tl := new TransactionsList();
    for i := 0 to nbTxs
      invariant tl.Valid() && fresh(tl) && fresh(tl.transactions)
      invariant DecodeTl(bin, start + 88, i) == Some(tl.Contents())
      invariant cursor == start + 88 + TlSize(tl.Contents())
    {
      DecodeTlPrefix(bin, start + 88, i + 1, nbTxs);
      ghost var before := tl.Contents();
      var t := BinToTxs(bin, cursor);
      cursor := cursor + TxSize(t);
      tl.Add(t);
      assert tl.Contents()[..|before|] == before;
    }
    b := Block(previusHash, tl.transactions[..tl.size], blockHash, proof, ToTime(time));
  }

  lemma {:induction false} DecodeTlPrefix(bin: seq<Byte>, cursor: nat, i: nat, n: nat)
    requires i <= n && DecodeTl(bin, cursor, n).Some?
    ensures DecodeTl(bin, cursor, i).Some?
    decreases n
  {
    if i < n {
      DecodeTlPrefix(bin, cursor, i, n - 1);
    }
  }

  // blockchainToBin: the buffer is enlarged for every block
  method BlockchainToBin(c: seq<Block>) returns (bin: array<Byte>)
    ensures fresh(bin) && bin[..] == EncodeChain(c)
  {
    hide Word8, EncodeBlock, BlocksSize;
    bin := new Byte[8];
    var cursor := Append(bin, 0, Word8(|c|));
    assert bin[..] == bin[..cursor];
    for i := 0 to |c|
      invariant fresh(bin)
      invariant bin[..] == Word8(|c|) + EncodeBlocks(c[..i])
    {
      bin := AddBlockBin(bin, c[i]);
      assert c[..i + 1][..i] == c[..i];
      JoinBytes(Word8(|c|), EncodeBlocks(c[..i]), EncodeBlock(c[i]));
    }
    assert c[..|c|] == c;
  }

  lemma JoinBytes(a: seq<Byte>, b: seq<Byte>, c: seq<Byte>)
    ensures a + b + c == a + (b + c)
  {
  }

  // the loop body of blockchainToBin
  method AddBlockBin(res: array<Byte>, b: Block) returns (bin: array<Byte>)
    ensures fresh(bin) && bin[..] == res[..] + EncodeBlock(b)
  {
    hide EncodeBlock;
    var blockbin := BlockToBin(b);
    bin := Enlarge(res, res.Length + blockbin.Length);
    var cursor := Append(bin, res.Length, blockbin[..]);
    assert bin[..] == bin[..cursor];
  }

  // realloc to a larger block
  method Enlarge(a: array<Byte>, size: nat) returns (b: array<Byte>)
    requires a.Length <= size
    ensures fresh(b) && b.Length == size && b[..a.Length] == a[..]
  {
    b := new Byte[size];
    var end := Append(b, 0, a[..]);
  }

  // binToBlockchain
  method BinToBlockchain(bin: seq<Byte>) returns (c: seq<Block>)
    requires DecodeChain(bin).Some?
    ensures c == DecodeChain(bin).value
  {
    hide DecodeBlock;
    var nbBlocks := Read8(bin, 0).value;
    var cursor := 8;
    c := [];
    for i := 0 to nbBlocks
      invariant DecodeBlocks(bin, 8, i) == Some(c)
      invariant cursor == 8 + BlocksSize(c)
    {
      DecodeBlocksPrefix(bin, 8, i + 1, nbBlocks);
      var b := BinToBlock(bin, cursor);
      var size := SizeOfBlock(b);
      cursor := cursor + size;
      assert (c + [b])[..|c|] == c;
      c := c + [b];
    }
  }

  lemma {:induction false} DecodeBlocksPrefix(bin: seq<Byte>, cursor: nat, i: nat, n: nat)
    requires i <= n && DecodeBlocks(bin, cursor, n).Some?
    ensures DecodeBlocks(bin, cursor, i).Some?
    decreases n
  {
    if i < n {
      DecodeBlocksPrefix(bin, cursor, i, n - 1);
    }
  }

  // MessageToBin
  method MessageToBin(m: Message) returns (res: array<Byte>)
    ensures fresh(res) && res[..] == EncodeMessage(m)
  {
    hide Word8;
    res := new Byte[9 + |m.data|];
    var kind := m.kind % 256;
    var offset := Append(res, 0, [kind]);
    offset := Append(res, offset, Word8(|m.data|));
    offset := Append(res, offset, m.data);
    assert res[..offset] == res[..];
  }

  // BinToMessage: the message whose encoding the buffer starts with, its type a byte
  method BinToMessage(buff: seq<Byte>) returns (m: Message)
    requires DecodeMessage(buff).Some?
    ensures m == DecodeMessage(buff).value
    ensures EncodeMessage(m) <= buff && 0 <= m.kind < 256
    ensures forall m0: Message | |m0.data| < U64_LIMIT && EncodeMessage(m0) <= buff :: m == Message(m0.kind % 256, m0.data)
  {
    var kind := buff[0];
    var sizeData := Read8(buff, 1).value;
    m := Message(kind, buff[9..9 + sizeData]);
    DecodedEncodes(buff);
    forall m0: Message | |m0.data| < U64_LIMIT && EncodeMessage(m0) <= buff
      ensures m == Message(m0.kind % 256, m0.data)
    {
      PrefixDecodes(m0, buff);
    }
  }

  /** A buffer starts with the encoding of what it decodes to. */
  lemma DecodedEncodes(buff: seq<Byte>)
    requires DecodeMessage(buff).Some?
    ensures EncodeMessage(DecodeMessage(buff).value) <= buff && 0 <= DecodeMessage(buff).value.kind < 256
  {
    hide LittleEndian, FromLittleEndian;
    LittleEndianReturns(buff[1..9]);
    var m := DecodeMessage(buff).value;
    assert EncodeMessage(m) == buff[..1] + buff[1..9] + buff[9..9 + |m.data|];
  }

  lemma PrefixDecodes(m: Message, buff: seq<Byte>)
    requires |m.data| < U64_LIMIT && EncodeMessage(m) <= buff
    ensures DecodeMessage(buff) == Some(Message(m.kind % 256, m.data))
  {
    hide EncodeMessage, DecodeMessage;
    var n := Message(m.kind % 256, m.data);
    TypeIsCut(m);
    assert buff == EncodeMessage(n) + buff[|EncodeMessage(n)|..];
    MessageRoundTrip(n, buff[|EncodeMessage(n)|..]);
  }

  lemma TypeIsCut(m: Message)
    ensures EncodeMessage(Message(m.kind % 256, m.data)) == EncodeMessage(m)
  {
  }
}
