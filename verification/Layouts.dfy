/** What stands where in the binary formats, byte by byte. */
module Layouts {
  import opened Arithmetic
  import opened Bytes
  import opened Transactions
  import opened Blocks
  import opened Codec
  import opened Peers
  import opened PeerMessage

  /** Byte i of a number is its i-th digit to the base 256, the least significant first. */
  lemma {:induction false} LittleEndianAt(n: nat, k: nat, i: nat)
    requires i < k
    ensures LittleEndian(n, k)[i] == n / Pow256(i) % 256
  {
    if i > 0 {
      LittleEndianAt(n / 256, k - 1, i - 1);
      DivideTwice(n, Pow256(i - 1));
    }
  }

  lemma DivideTwice(n: nat, p: nat)
    requires 0 < p
    ensures n / 256 / p == n / (256 * p)
  {
    var q, r := n / (256 * p), n % (256 * p);
    assert n == 256 * (q * p) + r;
    assert n / 256 == q * p + r / 256;
    Quotient(n / 256, p, q, r / 256);
  }

  lemma Quotient(n: nat, p: nat, q: nat, r: nat)
    requires 0 < p && n == q * p + r && r < p
    ensures n / p == q
  {
    QuotientUnique(n, p, q, r);
    var d := n / p - q;
    assert n == (n / p) * p + n % p;
    assert d * p == 0;
    NonzeroMultiple(d, p);
  }

  /** What follows the first word, the two strings behind their lengths, the amount and the time. */
  lemma RecordBytes(sender: seq<Byte>, receiver: seq<Byte>, amount: U64, time: Time)
    ensures var s, m, n := EncodeRecord(sender, receiver, amount, time), |sender|, |receiver|;
            && |s| == m + n + 40
            && s[..8] == LittleEndian(m + n + 32, 8)
            && s[8..16] == LittleEndian(m, 8) && s[16..16 + m] == sender
            && s[16 + m..24 + m] == LittleEndian(n, 8) && s[24 + m..24 + m + n] == receiver
            && s[24 + m + n..32 + m + n] == LittleEndian(amount, 8)
            && s[32 + m + n..] == LittleEndian(ToU64(time), 8)
  {
    hide LittleEndian;
  }

  lemma TxBytes(t: Transaction)
    ensures EncodeTx(t) == EncodeRecord(t.sender, t.receiver, t.amount, t.time)
  {
  }

  /** The number of transactions, the two hashes, the proof and the time. */
  lemma HeaderBytes(b: Block)
    ensures var s := EncodeBlock(b);
            && |s| >= 88
            && s[..8] == LittleEndian(|b.tl|, 8) && s[8..40] == b.previusHash && s[40..72] == b.blockHash
            && s[72..80] == LittleEndian(b.proof, 8) && s[80..88] == LittleEndian(ToU64(b.time), 8)
            && s[88..] == EncodeTl(b.tl)
  {
    hide LittleEndian, EncodeTl;
    var s := EncodeBlock(b);
    assert s[..88] == BlockHeader(b) && s[88..] == EncodeTl(b.tl);
    assert s[..8] == BlockHeader(b)[..8] && s[8..40] == BlockHeader(b)[8..40] && s[40..72] == BlockHeader(b)[40..72];
    assert s[72..80] == BlockHeader(b)[72..80] && s[80..88] == BlockHeader(b)[80..88];
  }

  /** The transactions stand one behind the other, in their order. */
  lemma TlBytes(tl: seq<Transaction>, t: Transaction)
    ensures EncodeTl([]) == [] && EncodeTl(tl + [t]) == EncodeTl(tl) + EncodeTx(t)
  {
    hide EncodeTx;
    assert (tl + [t])[..|tl|] == tl;
  }

  lemma ChainBytes(c: seq<Block>, b: Block)
    ensures EncodeChain(c)[..8] == LittleEndian(|c|, 8) && EncodeChain(c)[8..] == EncodeBlocks(c)
    ensures EncodeBlocks([]) == [] && EncodeBlocks(c + [b]) == EncodeBlocks(c) + EncodeBlock(b)
  {
    hide LittleEndian, EncodeBlock;
    assert (c + [b])[..|c|] == c;
  }

  /** One byte of type, the length, and the data. */
  lemma MessageBytes(m: Message)
    ensures var s := EncodeMessage(m);
            |s| == 9 + |m.data| && s[0] == m.kind % 256 && s[1..9] == LittleEndian(|m.data|, 8) && s[9..] == m.data
  {
    hide LittleEndian;
  }

  lemma FileBytes(c: seq<Block>)
    ensures SaveFile(c)[..8] == LittleEndian(|EncodeChain(c)|, 8) && SaveFile(c)[8..] == EncodeChain(c)
  {
    hide LittleEndian, EncodeChain;
  }

  /** The size of host name and port, the host name with its terminator, the port and the two flags. */
  lemma PeerBytes(p: Peer)
    requires PeerFits(p)
    ensures var s, n := EncodePeer(p), |p.host|;
            && |s| == n + 17
            && s[..2] == LittleEndian(n + 7, 2) && s[2..2 + n] == p.host && s[2 + n] == 0
            && s[3 + n..9 + n] == p.port
            && s[9 + n..13 + n] == LittleEndian(if p.api < 0 then p.api + 0x1_0000_0000 else p.api, 4)
            && s[13 + n..] == LittleEndian(if p.mining < 0 then p.mining + 0x1_0000_0000 else p.mining, 4)
  {
    hide LittleEndian;
    var host := p.host + [0];
    assert host[..HostSize(p.host)] == host;
    var s := EncodePeer(p);
    assert s == LittleEndian(|p.host| + 7, 2) + host + p.port
                + LittleEndian(ToU32(p.api), 4) + LittleEndian(ToU32(p.mining), 4);
    assert s[2..3 + |p.host|] == host;
    assert s[2..2 + |p.host|] == host[..|p.host|] && s[2 + |p.host|] == host[|p.host|];
  }

  lemma PeersBytes(l: seq<Peer>, p: Peer)
    ensures EncodePeers([]) == [] && EncodePeers(l + [p]) == EncodePeers(l) + EncodePeer(p)
  {
    EncodePeersSnoc(l, p);
  }
}
