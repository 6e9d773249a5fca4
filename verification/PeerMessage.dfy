/** The TYPE_NETWORK message: how sendNetwork writes the peer list and how it is read back. */
module PeerMessage {
  import opened Arithmetic
  import opened Bytes
  import opened Codec
  import opened RoundTrips
  import opened Peers

  function ToU32(x: Int32): nat { if x < 0 then x + 0x1_0000_0000 else x }

  function ToInt32(n: nat): Int32
    requires n < 0x1_0000_0000
  {
    if n < 0x8000_0000 then n else n - 0x1_0000_0000
  }

  /** sizeHostname of the encoder, a uint16_t. */
  function HostSize(host: CString): nat { (|host| + 1) % 0x1_0000 }

  function EncodePeer(p: Peer): seq<Byte> {
    LittleEndian((HostSize(p.host) + 6) % 0x1_0000, 2) + (p.host + [0])[..HostSize(p.host)] + p.port
    + LittleEndian(ToU32(p.api), 4) + LittleEndian(ToU32(p.mining), 4)
  }

  function EncodePeers(l: seq<Peer>): seq<Byte> {
    if l == [] then [] else EncodePeer(l[0]) + EncodePeers(l[1..])
  }

  function ReadNumber(data: seq<Byte>, offset: nat, k: nat): (n: nat)
    requires offset + k <= |data|
    ensures n < Pow256(k)
  {
    FromLittleEndianBound(Slice(data, offset, offset + k));
    FromLittleEndian(Slice(data, offset, offset + k))
  }

  lemma SmallPowers()
    ensures Pow256(2) == 0x1_0000 && Pow256(4) == 0x1_0000_0000
  {
  }

  /** The size word of a record, if it can be read. */
  function RecordSize(data: seq<Byte>, offset: nat): nat
    requires offset + 2 <= |data|
  {
    ReadNumber(data, offset, 2)
  }

  /**
   Everything one round of addServerFromMessage reads lies in the message, and both
   strings are terminated in their fields; otherwise the C code leaves its buffers.
   */
  predicate RecordReadable(data: seq<Byte>, offset: nat) {
    && offset + 2 <= |data|
    && var size := RecordSize(data, offset);
       var sizeHostname := (size - 6) % 0x1_0000;
       && offset + 2 + sizeHostname + 6 <= |data| && offset + 2 + size + 8 <= |data|
       && 0 in Slice(data, offset + 2, offset + 2 + sizeHostname)
       && 0 in Slice(data, offset + 2 + sizeHostname, offset + 8 + sizeHostname)
  }

  function ReadRecord(data: seq<Byte>, offset: nat): (r: Record)
    requires RecordReadable(data, offset)
    ensures 0 in r.port
  {
    SmallPowers();
    var size := RecordSize(data, offset);
    var portAt := offset + 2 + (size - 6) % 0x1_0000;
    Peer(CutAtNul(Slice(data, offset + 2, portAt)), Slice(data, portAt, portAt + 6),
         ToInt32(ReadNumber(data, offset + 2 + size, 4)), ToInt32(ReadNumber(data, offset + 6 + size, 4)))
  }

  function NextRecord(data: seq<Byte>, offset: nat): (next: nat)
    requires RecordReadable(data, offset)
    ensures offset < next <= |data|
  {
    offset + 10 + RecordSize(data, offset)
  }

  /** The records of a message from an offset on. */
  function Parse(data: seq<Byte>, offset: nat): (rs: Option<seq<Record>>)
    ensures rs.Some? ==> Terminated(rs.value)
    decreases |data| - offset
  {
    if offset >= |data| then Some([])
    else if !RecordReadable(data, offset) then None
    else
      var rest := Parse(data, NextRecord(data, offset));
      if rest.None? then None else Some([ReadRecord(data, offset)] + rest.value)
  }

  /** The lengths of the encoder's two uint16_t variables do not wrap, and the port is a C string. */
  predicate PeerFits(p: Peer) {
    |p.host| + 7 < 0x1_0000 && 0 in p.port
  }

  predicate PeersFit(l: seq<Peer>) {
    forall p | p in l :: PeerFits(p)
  }

  lemma ReadsNumber(data: seq<Byte>, offset: nat, n: nat, k: nat)
    requires n < Pow256(k) && Holds(data, offset, LittleEndian(n, k))
    ensures ReadNumber(data, offset, k) == n
  {
    LittleEndianInverts(n, k);
  }

  lemma PeerFields(data: seq<Byte>, offset: nat, p: Peer)
    requires PeerFits(p) && Holds(data, offset, EncodePeer(p))
    ensures var portAt := offset + 3 + |p.host|;
            && Holds(data, offset, LittleEndian(|p.host| + 7, 2)) && Holds(data, offset + 2, p.host + [0])
            && Holds(data, portAt, p.port) && Holds(data, portAt + 6, LittleEndian(ToU32(p.api), 4))
            && Holds(data, portAt + 10, LittleEndian(ToU32(p.mining), 4))
  {
    hide Holds, LittleEndian;
    var size, host := LittleEndian(|p.host| + 7, 2), p.host + [0];
    var api, mining := LittleEndian(ToU32(p.api), 4), LittleEndian(ToU32(p.mining), 4);
    assert host[..HostSize(p.host)] == host;
    assert EncodePeer(p) == size + host + p.port + api + mining;
    HoldsSplit(data, offset, size + host + p.port + api, mining);
    HoldsSplit(data, offset, size + host + p.port, api);
    HoldsSplit(data, offset, size + host, p.port);
    HoldsSplit(data, offset, size, host);
  }

  lemma PeerStrings(data: seq<Byte>, offset: nat, p: Peer)
    requires Holds(data, offset, p.host + [0]) && Holds(data, offset + 1 + |p.host|, p.port)
    ensures Slice(data, offset, offset + 1 + |p.host|) == p.host + [0]
    ensures 0 in Slice(data, offset, offset + 1 + |p.host|)
    ensures CutAtNul(Slice(data, offset, offset + 1 + |p.host|)) == p.host
    ensures Slice(data, offset + 1 + |p.host|, offset + 7 + |p.host|) == p.port
  {
    assert (p.host + [0])[|p.host|] == 0;
    CutAtNulTerminated(p.host);
  }

  lemma PeerReads(data: seq<Byte>, offset: nat, p: Peer)
    requires PeerFits(p) && Holds(data, offset, EncodePeer(p))
    ensures RecordReadable(data, offset) && ReadRecord(data, offset) == p
    ensures NextRecord(data, offset) == offset + |EncodePeer(p)|
  {
    hide EncodePeer, LittleEndian, ReadNumber, Slice, CutAtNul;
    PeerFields(data, offset, p);
    SmallPowers();
    ReadsNumber(data, offset, |p.host| + 7, 2);
    var size := |p.host| + 7;
    assert RecordSize(data, offset) == size && (size - 6) % 0x1_0000 == |p.host| + 1;
    ReadsNumber(data, offset + 2 + size, ToU32(p.api), 4);
    ReadsNumber(data, offset + 6 + size, ToU32(p.mining), 4);
    PeerStrings(data, offset + 2, p);
    EncodedPeerLength(p);
  }

  lemma EncodedPeerLength(p: Peer)
    requires PeerFits(p)
    ensures |EncodePeer(p)| == |p.host| + 17
  {
  }

  lemma {:induction false} CutAtNulTerminated(s: CString)
    ensures CutAtNul(s + [0]) == s
  {
    if s != [] {
      assert (s + [0])[1..] == s[1..] + [0];
      CutAtNulTerminated(s[1..]);
    }
  }

  lemma {:induction false} PeersParse(data: seq<Byte>, offset: nat, l: seq<Peer>)
    requires PeersFit(l) && Holds(data, offset, EncodePeers(l)) && offset + |EncodePeers(l)| == |data|
    ensures Parse(data, offset) == Some(l)
    decreases |l|
  {
    hide EncodePeer, Holds, RecordReadable, ReadRecord, NextRecord, PeerFits;
    if l != [] {
      HoldsSplit(data, offset, EncodePeer(l[0]), EncodePeers(l[1..]));
      PeerReads(data, offset, l[0]);
      EncodedPeerLength(l[0]);
      PeersParse(data, offset + |EncodePeer(l[0])|, l[1..]);
      assert [l[0]] + l[1..] == l;
    }
  }

  /** addServerFromMessage reads from a message exactly the peers sendNetwork wrote. */
  lemma PeersRoundTrip(l: seq<Peer>)
    requires PeersFit(l)
    ensures Parse(EncodePeers(l), 0) == Some(l)
  {
    var data := EncodePeers(l);
    assert data[0..|data|] == data;
    PeersParse(data, 0, l);
  }

  lemma {:induction false} EncodePeersSnoc(l: seq<Peer>, p: Peer)
    ensures EncodePeers(l + [p]) == EncodePeers(l) + EncodePeer(p)
  {
    hide EncodePeer;
    if l == [] {
      assert [p][1..] == [];
    } else {
      EncodePeersSnoc(l[1..], p);
      assert (l + [p])[1..] == l[1..] + [p];
    }
  }
}
