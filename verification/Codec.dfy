/**
 The binary formats of the node, as functions: little-endian 8-byte numbers around the
 raw bytes. A decoder answers None where the C code would read outside its buffer.
 */
module Codec {
  import opened Arithmetic
  import opened Bytes
  import opened Transactions
  import opened Blocks

  datatype Option<T> = None | Some(value: T)

  function LittleEndian(n: nat, k: nat): (s: seq<Byte>)
    ensures |s| == k
  {
    if k == 0 then [] else [n % 256] + LittleEndian(n / 256, k - 1)
  }

  function FromLittleEndian(s: seq<Byte>): nat {
    if s == [] then 0 else s[0] + 256 * FromLittleEndian(s[1..])
  }

  lemma {:induction false} LittleEndianInverts(n: nat, k: nat)
    requires n < Pow256(k)
    ensures FromLittleEndian(LittleEndian(n, k)) == n
  {
    if k > 0 {
      LittleEndianInverts(n / 256, k - 1);
      assert LittleEndian(n, k)[1..] == LittleEndian(n / 256, k - 1);
    }
  }

  lemma {:induction false} LittleEndianReturns(s: seq<Byte>)
    ensures LittleEndian(FromLittleEndian(s), |s|) == s
  {
    if s != [] {
      LittleEndianReturns(s[1..]);
    }
  }

  lemma {:induction false} FromLittleEndianBound(s: seq<Byte>)
    ensures FromLittleEndian(s) < Pow256(|s|)
  {
    if s != [] {
      FromLittleEndianBound(s[1..]);
    }
  }

  /** memcpy of an unsigned long long. */
  function Word8(n: nat): (s: seq<Byte>)
    ensures |s| == 8
  {
    LittleEndian(n, 8)
  }

  function Read8(bin: seq<Byte>, offset: nat): Option<U64> {
    if offset + 8 <= |bin| then
      FromLittleEndianBound(bin[offset..offset + 8]);
      Pow256Of8();
      Some(FromLittleEndian(bin[offset..offset + 8]))
    else None
  }

  /** The bytes from one offset to another. */
  function Slice(bin: seq<Byte>, from: nat, to: nat): (s: seq<Byte>)
    requires from <= to <= |bin|
    ensures |s| == to - from
  {
    bin[from..to]
  }

  /** The string that strlen sees in a buffer of raw bytes followed by a terminator. */
  function CutAtNul(s: seq<Byte>): CString {
    if s == [] || s[0] == 0 then [] else [s[0]] + CutAtNul(s[1..])
  }

  lemma {:induction false} CutAtNulKeeps(s: seq<Byte>)
    ensures |CutAtNul(s)| <= |s|
    ensures CutAtNul(s) == s <==> 0 !in s
    ensures |CutAtNul(s)| == |s| <==> 0 !in s
  {
    if s != [] && s[0] != 0 {
      CutAtNulKeeps(s[1..]);
      assert s == [s[0]] + s[1..];
    }
  }

  /** The bytes up to the first NUL, or all of them. */
  lemma {:induction false} CutAtNulIs(s: seq<Byte>)
    ensures CutAtNul(s) <= s && (CutAtNul(s) == s || s[|CutAtNul(s)|] == 0)
  {
    if s != [] && s[0] != 0 {
      CutAtNulIs(s[1..]);
      assert s == [s[0]] + s[1..];
    }
  }

  // getSizeOf_txsbin
  function TxSize(t: Transaction): nat {
    |t.sender| + |t.receiver| + 40
  }

  /** A transaction record around raw strings; the first word counts what follows it. */
  function EncodeRecord(sender: seq<Byte>, receiver: seq<Byte>, amount: U64, time: Time): (s: seq<Byte>)
    ensures |s| == |sender| + |receiver| + 40
  {
    Word8(|sender| + |receiver| + 32) + Word8(|sender|) + sender + Word8(|receiver|) + receiver
    + Word8(amount) + Word8(ToU64(time))
  }

  function EncodeTx(t: Transaction): (s: seq<Byte>)
    ensures |s| == TxSize(t)
  {
    EncodeRecord(t.sender, t.receiver, t.amount, t.time)
  }

  /** Where the receiver's length word and the amount of a record stand. */
  datatype Layout = Layout(receiverAt: nat, amountAt: nat)

  function FindLayout(bin: seq<Byte>, offset: nat): (r: Option<Layout>)
    ensures r.Some? ==> offset + 16 <= r.value.receiverAt <= r.value.amountAt - 8 <= |bin| - 24
  {
    var senderSize := Read8(bin, offset + 8);
    if senderSize.None? then None else
      var receiverAt := offset + 16 + senderSize.value;
      var receiverSize := Read8(bin, receiverAt);
      if receiverSize.None? then None else
        var amountAt := receiverAt + 8 + receiverSize.value;
        if amountAt + 16 <= |bin| then Some(Layout(receiverAt, amountAt)) else None
  }

  // binToTxs: the first word is read and not used
  function DecodeTx(bin: seq<Byte>, offset: nat): Option<Transaction> {
    var layout := FindLayout(bin, offset);
    if layout.None? then None else
      var Layout(receiverAt, amountAt) := layout.value;
      Some(Transaction(CutAtNul(Slice(bin, offset + 16, receiverAt)), CutAtNul(Slice(bin, receiverAt + 8, amountAt)),
                       Read8(bin, amountAt).value, ToTime(Read8(bin, amountAt + 8).value)))
  }

  function TlSize(tl: seq<Transaction>): nat {
    if tl == [] then 0 else TlSize(tl[..|tl| - 1]) + TxSize(tl[|tl| - 1])
  }

  function EncodeTl(tl: seq<Transaction>): (s: seq<Byte>)
    ensures |s| == TlSize(tl)
  {
    if tl == [] then [] else EncodeTl(tl[..|tl| - 1]) + EncodeTx(tl[|tl| - 1])
  }

  /** n transactions from cursor on, each step as long as the transaction it yielded. */
  function DecodeTl(bin: seq<Byte>, cursor: nat, n: nat): Option<seq<Transaction>> {
    if n == 0 then Some([]) else
      match DecodeTl(bin, cursor, n - 1)
      case None => None
      case Some(tl) =>
        match DecodeTx(bin, cursor + TlSize(tl))
        case None => None
        case Some(t) => Some(tl + [t])
  }

  // getSizeOf_blockbin
  function BlockSize(b: Block): nat {
    88 + TlSize(b.tl)
  }

  function BlockHeader(b: Block): (s: seq<Byte>)
    ensures |s| == 88
  {
    Word8(|b.tl|) + b.previusHash + b.blockHash + Word8(b.proof) + Word8(ToU64(b.time))
  }

  // blockToBin
  function EncodeBlock(b: Block): (s: seq<Byte>)
    ensures |s| == BlockSize(b)
  {
    BlockHeader(b) + EncodeTl(b.tl)
  }

  // binToBlock
  function DecodeBlock(bin: seq<Byte>, offset: nat): Option<Block> {
    match Read8(bin, offset + 80)
    case None => None
    case Some(time) =>
      match DecodeTl(bin, offset + 88, Read8(bin, offset).value)
      case None => None
      case Some(tl) =>
        Some(Block(bin[offset + 8..offset + 40], tl, bin[offset + 40..offset + 72],
                   Read8(bin, offset + 72).value, ToTime(time)))
  }

  function BlocksSize(c: seq<Block>): nat {
    if c == [] then 0 else BlocksSize(c[..|c| - 1]) + BlockSize(c[|c| - 1])
  }

  function EncodeBlocks(c: seq<Block>): (s: seq<Byte>)
    ensures |s| == BlocksSize(c)
  {
    if c == [] then [] else EncodeBlocks(c[..|c| - 1]) + EncodeBlock(c[|c| - 1])
  }

  function DecodeBlocks(bin: seq<Byte>, cursor: nat, n: nat): Option<seq<Block>> {
    if n == 0 then Some([]) else
      match DecodeBlocks(bin, cursor, n - 1)
      case None => None
      case Some(c) =>
        match DecodeBlock(bin, cursor + BlocksSize(c))
        case None => None
        case Some(b) => Some(c + [b])
  }

  // blockchainToBin
  function EncodeChain(c: seq<Block>): seq<Byte> {
    Word8(|c|) + EncodeBlocks(c)
  }

  // binToBlockchain
  function DecodeChain(bin: seq<Byte>): Option<seq<Block>> {
    match Read8(bin, 0)
    case None => None
    case Some(n) => DecodeBlocks(bin, 8, n)
  }

  datatype Message = Message(kind: int, data: seq<Byte>)

  // MessageToBin: the type is cut to one byte
  function EncodeMessage(m: Message): seq<Byte> {
    [m.kind % 256] + Word8(|m.data|) + m.data
  }

  // BinToMessage
  function DecodeMessage(buff: seq<Byte>): Option<Message> {
    match Read8(buff, 1)
    case None => None
    case Some(size) => if 9 + size > |buff| then None else Some(Message(buff[0], buff[9..9 + size]))
  }

  // saveBlockchain: the length of the encoding, then the encoding
  function SaveFile(c: seq<Block>): seq<Byte> {
    Word8(|EncodeChain(c)|) + EncodeChain(c)
  }

  // loadBlockchain
  function LoadFile(file: seq<Byte>): Option<seq<Block>> {
    match Read8(file, 0)
    case None => None
    case Some(size) => if 8 + size > |file| then None else DecodeChain(file[8..8 + size])
  }
}
