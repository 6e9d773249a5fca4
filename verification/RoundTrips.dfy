/** Decoding undoes encoding, at any place inside a larger buffer. */
module RoundTrips {
  import opened Arithmetic
  import opened Bytes
  import opened Transactions
  import opened Blocks
  import opened Codec

  /** part stands in bin from offset on. */
  predicate Holds(bin: seq<Byte>, offset: nat, part: seq<Byte>) {
    offset + |part| <= |bin| && bin[offset..offset + |part|] == part
  }

  lemma HoldsSplit(bin: seq<Byte>, offset: nat, a: seq<Byte>, b: seq<Byte>)
    requires Holds(bin, offset, a + b)
    ensures Holds(bin, offset, a) && Holds(bin, offset + |a|, b)
  {
    var part := bin[offset..offset + |a + b|];
    assert part[..|a|] == a && part[|a|..] == b;
    assert bin[offset..offset + |a|] == part[..|a|];
    assert bin[offset + |a|..offset + |a| + |b|] == part[|a|..];
  }

  lemma ReadsWord(bin: seq<Byte>, offset: nat, n: U64)
    requires Holds(bin, offset, Word8(n))
    ensures Read8(bin, offset) == Some(n)
  {
    Pow256Of8();
    LittleEndianInverts(n, 8);
  }

  /** Strings short enough for their length to fit its field. */
  predicate TxFits(t: Transaction) { TxSize(t) < U64_LIMIT }

  predicate TlFits(tl: seq<Transaction>) {
    |tl| < U64_LIMIT && forall t | t in tl :: TxFits(t)
  }

  predicate AllFit(c: seq<Block>) {
    forall b | b in c :: TlFits(b.tl)
  }

  predicate ChainFits(c: seq<Block>) {
    |c| < U64_LIMIT && AllFit(c)
  }

  /** Where the five fields of a record stand. */
  lemma RecordFields(bin: seq<Byte>, offset: nat, sender: seq<Byte>, receiver: seq<Byte>, amount: U64, time: Time)
    requires Holds(bin, offset, EncodeRecord(sender, receiver, amount, time))
    ensures var receiverAt := offset + 16 + |sender|;
            var amountAt := receiverAt + 8 + |receiver|;
            && Holds(bin, offset + 8, Word8(|sender|)) && Holds(bin, offset + 16, sender)
            && Holds(bin, receiverAt, Word8(|receiver|)) && Holds(bin, receiverAt + 8, receiver)
            && Holds(bin, amountAt, Word8(amount)) && Holds(bin, amountAt + 8, Word8(ToU64(time)))
  {
    var w := Word8(|sender| + |receiver| + 32);
    HoldsSplit(bin, offset, w + Word8(|sender|) + sender + Word8(|receiver|) + receiver + Word8(amount), Word8(ToU64(time)));
    HoldsSplit(bin, offset, w + Word8(|sender|) + sender + Word8(|receiver|) + receiver, Word8(amount));
    HoldsSplit(bin, offset, w + Word8(|sender|) + sender + Word8(|receiver|), receiver);
    HoldsSplit(bin, offset, w + Word8(|sender|) + sender, Word8(|receiver|));
    HoldsSplit(bin, offset, w + Word8(|sender|), sender);
    HoldsSplit(bin, offset, w, Word8(|sender|));
  }

  /**
   What binToTxs makes of a record around any raw bytes. It advances by the size of the
   strings it can see, which is the size of the record exactly when no NUL is inside.
   */
  lemma RecordDecodes(bin: seq<Byte>, offset: nat, sender: seq<Byte>, receiver: seq<Byte>, amount: U64, time: Time)
    requires Holds(bin, offset, EncodeRecord(sender, receiver, amount, time))
    requires |sender| + |receiver| < U64_LIMIT
    ensures DecodeTx(bin, offset) == Some(Transaction(CutAtNul(sender), CutAtNul(receiver), amount, time))
    ensures TxSize(DecodeTx(bin, offset).value) == |EncodeRecord(sender, receiver, amount, time)|
       <==> 0 !in sender && 0 !in receiver
  {
    FieldsDecode(bin, offset, sender, receiver, amount, time);
    CutAtNulKeeps(sender);
    CutAtNulKeeps(receiver);
  }

  lemma FieldsDecode(bin: seq<Byte>, offset: nat, sender: seq<Byte>, receiver: seq<Byte>, amount: U64, time: Time)
    requires Holds(bin, offset, EncodeRecord(sender, receiver, amount, time))
    requires |sender| + |receiver| < U64_LIMIT
    ensures DecodeTx(bin, offset) == Some(Transaction(CutAtNul(sender), CutAtNul(receiver), amount, time))
  {
    hide *;
    var l := Layout(offset + 16 + |sender|, offset + 24 + |sender| + |receiver|);
    FieldsRead(bin, offset, l, sender, receiver, amount, time);
    LayoutDecodes(bin, offset, l, sender, receiver, amount, time);
  }

  lemma LayoutDecodes(bin: seq<Byte>, offset: nat, l: Layout,
                      sender: seq<Byte>, receiver: seq<Byte>, amount: U64, time: Time)
    requires FieldsStand(bin, offset, l, sender, receiver, amount, time)
    ensures DecodeTx(bin, offset) == Some(Transaction(CutAtNul(sender), CutAtNul(receiver), amount, time))
  {
    hide Read8, CutAtNul, Slice;
    LayoutFound(bin, offset, |sender|, |receiver|);
    TimeReturns(time);
  }

  /** The five fields of a record, read at the places a layout gives. */
  predicate FieldsStand(bin: seq<Byte>, offset: nat, l: Layout,
                        sender: seq<Byte>, receiver: seq<Byte>, amount: U64, time: Time) {
    && l.receiverAt == offset + 16 + |sender| && l.amountAt == l.receiverAt + 8 + |receiver|
    && l.amountAt + 16 <= |bin| && |sender| < U64_LIMIT && |receiver| < U64_LIMIT
    && Read8(bin, offset + 8) == Some(|sender|) && Read8(bin, l.receiverAt) == Some(|receiver|)
    && Slice(bin, offset + 16, l.receiverAt) == sender && Slice(bin, l.receiverAt + 8, l.amountAt) == receiver
    && Read8(bin, l.amountAt) == Some(amount) && Read8(bin, l.amountAt + 8) == Some(ToU64(time))
  }

  lemma LayoutFound(bin: seq<Byte>, offset: nat, n: U64, m: U64)
    requires Read8(bin, offset + 8) == Some(n) && Read8(bin, offset + 16 + n) == Some(m)
    requires offset + 40 + n + m <= |bin|
    ensures FindLayout(bin, offset) == Some(Layout(offset + 16 + n, offset + 24 + n + m))
  {
    hide Read8;
  }

  lemma FieldsRead(bin: seq<Byte>, offset: nat, l: Layout, sender: seq<Byte>, receiver: seq<Byte>, amount: U64, time: Time)
    requires Holds(bin, offset, EncodeRecord(sender, receiver, amount, time))
    requires |sender| + |receiver| < U64_LIMIT
    requires l.receiverAt == offset + 16 + |sender| && l.amountAt == l.receiverAt + 8 + |receiver|
    ensures FieldsStand(bin, offset, l, sender, receiver, amount, time)
  {
    hide Read8, EncodeRecord, Word8;
    RecordFields(bin, offset, sender, receiver, amount, time);
    ReadsWord(bin, offset + 8, |sender|);
    ReadsWord(bin, l.receiverAt, |receiver|);
    ReadsWord(bin, l.amountAt, amount);
    ReadsWord(bin, l.amountAt + 8, ToU64(time));
  }

  lemma TxDecodes(bin: seq<Byte>, offset: nat, t: Transaction)
    requires Holds(bin, offset, EncodeTx(t)) && TxFits(t)
    ensures DecodeTx(bin, offset) == Some(t)
  {
    RecordDecodes(bin, offset, t.sender, t.receiver, t.amount, t.time);
    CutAtNulKeeps(t.sender);
    CutAtNulKeeps(t.receiver);
  }

  lemma {:induction false} TlDecodes(bin: seq<Byte>, cursor: nat, tl: seq<Transaction>)
    requires Holds(bin, cursor, EncodeTl(tl)) && TlFits(tl)
    ensures DecodeTl(bin, cursor, |tl|) == Some(tl)
  {
    hide *;
    if tl == [] {
      DecodesNothing(bin, cursor);
    } else {
      var front, last := tl[..|tl| - 1], tl[|tl| - 1];
      EncodeTlSnoc(tl);
      TlFitsSnoc(tl);
      HoldsSplit(bin, cursor, EncodeTl(front), EncodeTx(last));
      TlDecodes(bin, cursor, front);
      TxDecodes(bin, cursor + TlSize(front), last);
      DecodeTlSnoc(bin, cursor, tl);
    }
  }

  lemma DecodesNothing(bin: seq<Byte>, cursor: nat)
    ensures DecodeTl(bin, cursor, 0) == Some([]) && DecodeBlocks(bin, cursor, 0) == Some([])
  {
  }

  lemma TlFitsSnoc(tl: seq<Transaction>)
    requires tl != [] && TlFits(tl)
    ensures TlFits(tl[..|tl| - 1]) && TxFits(tl[|tl| - 1])
  {
    hide TxFits;
  }

  lemma EncodeTlSnoc(tl: seq<Transaction>)
    requires tl != []
    ensures EncodeTl(tl) == EncodeTl(tl[..|tl| - 1]) + EncodeTx(tl[|tl| - 1])
  {
    hide EncodeTx;
  }

  lemma DecodeTlSnoc(bin: seq<Byte>, cursor: nat, tl: seq<Transaction>)
    requires tl != []
    requires DecodeTl(bin, cursor, |tl| - 1) == Some(tl[..|tl| - 1])
    requires DecodeTx(bin, cursor + TlSize(tl[..|tl| - 1])) == Some(tl[|tl| - 1])
    ensures DecodeTl(bin, cursor, |tl|) == Some(tl)
  {
    hide DecodeTx, TlSize;
    assert tl[..|tl| - 1] + [tl[|tl| - 1]] == tl;
  }

  lemma BlockDecodes(bin: seq<Byte>, offset: nat, b: Block)
    requires Holds(bin, offset, EncodeBlock(b)) && TlFits(b.tl)
    ensures DecodeBlock(bin, offset) == Some(b)
  {
    hide Read8, Word8, EncodeTl, DecodeTl;
    HoldsSplit(bin, offset, BlockHeader(b), EncodeTl(b.tl));
    TlDecodes(bin, offset + 88, b.tl);
    HeaderFields(bin, offset, b);
    ReadsWord(bin, offset, |b.tl|);
    ReadsWord(bin, offset + 72, b.proof);
    ReadsWord(bin, offset + 80, ToU64(b.time));
  }

  lemma HeaderFields(bin: seq<Byte>, offset: nat, b: Block)
    requires Holds(bin, offset, BlockHeader(b))
    ensures Holds(bin, offset, Word8(|b.tl|))
    ensures Holds(bin, offset + 8, b.previusHash) && Holds(bin, offset + 40, b.blockHash)
    ensures Holds(bin, offset + 72, Word8(b.proof)) && Holds(bin, offset + 80, Word8(ToU64(b.time)))
  {
    var w := Word8(|b.tl|);
    HoldsSplit(bin, offset, w + b.previusHash + b.blockHash + Word8(b.proof), Word8(ToU64(b.time)));
    HoldsSplit(bin, offset, w + b.previusHash + b.blockHash, Word8(b.proof));
    HoldsSplit(bin, offset, w + b.previusHash, b.blockHash);
    HoldsSplit(bin, offset, w, b.previusHash);
  }

  lemma {:induction false} BlocksDecode(bin: seq<Byte>, cursor: nat, c: seq<Block>)
    requires Holds(bin, cursor, EncodeBlocks(c)) && AllFit(c)
    ensures DecodeBlocks(bin, cursor, |c|) == Some(c)
  {
    hide *;
    if c == [] {
      DecodesNothing(bin, cursor);
    } else {
      var front, last := c[..|c| - 1], c[|c| - 1];
      EncodeBlocksSnoc(c);
      AllFitSnoc(c);
      HoldsSplit(bin, cursor, EncodeBlocks(front), EncodeBlock(last));
      BlocksDecode(bin, cursor, front);
      BlockDecodes(bin, cursor + BlocksSize(front), last);
      DecodeBlocksSnoc(bin, cursor, c);
    }
  }

  lemma AllFitSnoc(c: seq<Block>)
    requires c != [] && AllFit(c)
    ensures AllFit(c[..|c| - 1]) && TlFits(c[|c| - 1].tl)
  {
    hide TlFits;
  }

  lemma EncodeBlocksSnoc(c: seq<Block>)
    requires c != []
    ensures EncodeBlocks(c) == EncodeBlocks(c[..|c| - 1]) + EncodeBlock(c[|c| - 1])
  {
    hide EncodeBlock;
  }

  lemma DecodeBlocksSnoc(bin: seq<Byte>, cursor: nat, c: seq<Block>)
    requires c != []
    requires DecodeBlocks(bin, cursor, |c| - 1) == Some(c[..|c| - 1])
    requires DecodeBlock(bin, cursor + BlocksSize(c[..|c| - 1])) == Some(c[|c| - 1])
    ensures DecodeBlocks(bin, cursor, |c|) == Some(c)
  {
    hide DecodeBlock, BlocksSize;
    assert c[..|c| - 1] + [c[|c| - 1]] == c;
  }

  /** binToBlockchain undoes blockchainToBin, whatever stands behind the encoding. */
  lemma ChainRoundTrip(c: seq<Block>, rest: seq<Byte>)
    requires ChainFits(c)
    ensures DecodeChain(EncodeChain(c) + rest) == Some(c)
  {
    var bin := EncodeChain(c) + rest;
    assert bin[0..|EncodeChain(c)|] == EncodeChain(c);
    HoldsSplit(bin, 0, Word8(|c|), EncodeBlocks(c));
    ReadsWord(bin, 0, |c|);
    BlocksDecode(bin, 8, c);
  }

  /** A message comes back from the wire unchanged exactly when its type fits one byte. */
  lemma MessageRoundTrip(m: Message, rest: seq<Byte>)
    requires |m.data| < U64_LIMIT
    ensures DecodeMessage(EncodeMessage(m) + rest).Some?
    ensures DecodeMessage(EncodeMessage(m) + rest).value == m <==> 0 <= m.kind < 256
    ensures DecodeMessage(EncodeMessage(m) + rest).value.data == m.data
  {
    var kind: seq<Byte> := [m.kind % 256];
    var buff := EncodeMessage(m) + rest;
    assert buff[0..|EncodeMessage(m)|] == EncodeMessage(m);
    HoldsSplit(buff, 0, kind + Word8(|m.data|), m.data);
    HoldsSplit(buff, 0, kind, Word8(|m.data|));
    ReadsWord(buff, 1, |m.data|);
    assert buff[0] == buff[0..1][0];
  }

  /** Loading what was saved gives back the chain. */
  lemma SaveLoadRoundTrip(c: seq<Block>)
    requires ChainFits(c) && |EncodeChain(c)| < U64_LIMIT
    ensures LoadFile(SaveFile(c)) == Some(c)
  {
    var bin := EncodeChain(c);
    var file := SaveFile(c);
    assert file[0..8 + |bin|] == Word8(|bin|) + bin;
    HoldsSplit(file, 0, Word8(|bin|), bin);
    ReadsWord(file, 0, |bin|);
    assert bin + [] == bin;
    ChainRoundTrip(c, []);
  }

  /** A chain broadcast in a message arrives as the same chain. */
  lemma BroadcastRoundTrip(c: seq<Block>)
    requires ChainFits(c) && |EncodeChain(c)| < U64_LIMIT
    ensures var m := DecodeMessage(EncodeMessage(Message(3, EncodeChain(c))));
            m.Some? && m.value.kind == 3 && DecodeChain(m.value.data) == Some(c)
  {
    var m := Message(3, EncodeChain(c));
    assert EncodeMessage(m) + [] == EncodeMessage(m);
    MessageRoundTrip(m, []);
    assert EncodeChain(c) + [] == EncodeChain(c);
    ChainRoundTrip(c, []);
  }
}
