/** The linked list of known servers: circular through next, with a sentinel that prev never leads past. */
module PeerList {
  import opened Bytes
  import opened Codec
  import opened Peers
  import opened PeerMessage

  /** struct clientInfo */
  class Client {
    var host: CString
    var port: Port
    var api: Int32
    var mining: Int32
    var isSentinel: bool
    var next: Client
    var prev: Client?
    var sentinel: Client

    // the sentinel of initClientList
    constructor Sentinel()
      ensures isSentinel && next == this && prev == null && sentinel == this
    {
      host := [];
      port := [0, 0, 0, 0, 0, 0];
      api := 0;
      mining := 0;
      isSentinel := true;
      next := this;
      prev := null;
      sentinel := this;
    }

    // the element that addClient allocates and links behind list
    constructor Entry(p: Peer, list: Client)
      ensures Value() == p && !isSentinel && next == list.next && prev == list && sentinel == list.sentinel
    {
      host := p.host;
      port := p.port;
      api := p.api;
      mining := p.mining;
      isSentinel := false;
      next := list.next;
      prev := list;
      sentinel := list.sentinel;
    }

    function Value(): Peer
      reads this
    {
      Peer(host, port, api, mining)
    }
  }

  ghost predicate AllDifferent(s: seq<Client>) {
    forall i, j | 0 <= i < j < |s| :: s[i] != s[j]
  }

  lemma OthersDiffer(s: seq<Client>, at: nat)
    requires AllDifferent(s) && at < |s|
    ensures forall i | 0 <= i < |s| && i != at :: s[i] != s[at]
  {
  }

  lemma NextOf(s: seq<Client>, at: nat)
    requires NextRing(s) && at < |s|
    ensures s[at].next == if at + 1 == |s| then s[0] else s[at + 1]
  {
  }

  lemma PrevOf(s: seq<Client>, at: nat)
    requires PrevRing(s) && 1 <= at < |s|
    ensures s[at].prev == s[at - 1]
  {
  }

  lemma WithoutDifferent(s: seq<Client>, at: nat)
    requires AllDifferent(s) && at < |s|
    ensures AllDifferent(Without(s, at)) && s[at] !in Without(s, at)
  {
  }

  lemma InsertDifferent(s: seq<Client>, at: nat, c: Client)
    requires AllDifferent(s) && at <= |s| && c !in s
    ensures AllDifferent(s[..at] + [c] + s[at..])
  {
  }

  /** The first is the sentinel, and all know it. */
  ghost predicate Members(s: seq<Client>, head: Client)
    reads s`sentinel, s`isSentinel
  {
    forall i | 0 <= i < |s| :: s[i].sentinel == head && (s[i].isSentinel <==> i == 0)
  }

  lemma InsertMember(s: seq<Client>, head: Client, at: nat, c: Client)
    requires Members(s, head) && at < |s| && c.sentinel == head && !c.isSentinel
    ensures Members(Inserted(s, at, c), head)
  {
  }

  lemma WithoutMember(s: seq<Client>, head: Client, at: nat)
    requires Members(s, head) && 1 <= at < |s|
    ensures Members(Without(s, at), head)
  {
  }

  ghost predicate NextRing(s: seq<Client>)
    reads s`next
  {
    && (forall i | 0 <= i < |s| - 1 :: s[i].next == s[i + 1])
    && (s != [] ==> s[|s| - 1].next == s[0])
  }

  /** A lone sentinel has no prev yet. */
  ghost predicate PrevRing(s: seq<Client>)
    reads s`prev
  {
    && (forall i | 1 <= i < |s| :: s[i].prev == s[i - 1])
    && (|s| > 1 ==> s[0].prev == s[|s| - 1])
  }

  function Inserted(s: seq<Client>, at: nat, c: Client): seq<Client>
    requires at < |s|
  {
    s[..at + 1] + [c] + s[at + 1..]
  }

  // list->next = client
  method LinkNext(list: Client, c: Client, ghost s: seq<Client>, ghost at: nat)
    requires AllDifferent(s) && NextRing(s) && at < |s| && list == s[at] && c !in s && c.next == list.next
    modifies list`next
    ensures NextRing(Inserted(s, at, c))
  {
    OthersDiffer(s, at);
    list.next := c;
  }

  // client->next->prev = client
  method LinkPrev(c: Client, ghost s: seq<Client>, ghost at: nat)
    requires AllDifferent(s) && PrevRing(s) && at < |s| && c !in s && c.prev == s[at]
    requires c.next == if at + 1 == |s| then s[0] else s[at + 1]
    modifies c.next`prev
    ensures PrevRing(Inserted(s, at, c))
  {
    OthersDiffer(s, if at + 1 == |s| then 0 else at + 1);
    c.next.prev := c;
  }

  function Without(s: seq<Client>, at: nat): seq<Client>
    requires at < |s|
  {
    s[..at] + s[at + 1..]
  }

  // client->prev->next = client->next
  method UnlinkNext(client: Client, prev: Client, ghost s: seq<Client>, ghost at: nat)
    requires AllDifferent(s) && NextRing(s) && 1 <= at < |s| && client == s[at] && prev == s[at - 1]
    modifies prev`next
    ensures NextRing(Without(s, at))
  {
    OthersDiffer(s, at - 1);
    prev.next := client.next;
  }

  // client->next->prev = client->prev
  method UnlinkPrev(client: Client, next: Client, ghost s: seq<Client>, ghost at: nat)
    requires AllDifferent(s) && PrevRing(s) && 1 <= at < |s| && client == s[at]
    requires next == if at + 1 == |s| then s[0] else s[at + 1]
    modifies next`prev
    ensures PrevRing(Without(s, at))
  {
    OthersDiffer(s, if at + 1 == |s| then 0 else at + 1);
    next.prev := client.prev;
  }

  class KnownServers {
    const head: Client
    ghost var ring: seq<Client>  // the sentinel, then the clients in the order of next

    ghost predicate Valid()
      reads this, ring
    {
      && |ring| >= 1 && ring[0] == head
      && AllDifferent(ring)
      && Members(ring, head) && NextRing(ring) && PrevRing(ring)
    }

    ghost function Values(): seq<Peer>
      requires |ring| >= 1
      reads this, ring
    {
      seq(|ring| - 1, i requires 0 <= i < |ring| - 1 reads this, ring => ring[i + 1].Value())
    }

    // initClientList
    constructor ()
      ensures Valid() && ring == [head] && fresh(head)
    {
      var sentinel := new Client.Sentinel();
      head := sentinel;
      ring := [sentinel];
    }

    // addClient, behind any element of the list; the connection test is the parameter
    method AddClient(list: Client, host: CString, port: Port, api: Int32, mining: Int32, reachable: bool, ghost at: nat)
      returns (client: Client?)
      requires Valid() && 0 in port && at < |ring| && list == ring[at]
      modifies this, ring
      ensures Valid() && (client != null <==> reachable)
      ensures if reachable then client.Value() == Peer(host, StoredPort(port), api, mining) && fresh(client)
                             && ring == old(ring)[..at + 1] + [client] + old(ring)[at + 1..]
              else ring == old(ring)
      ensures forall c | c in old(ring) :: c.Value() == old(c.Value())
    {
      if !reachable {
        return null;
      }
      var c := new Client.Entry(Peer(host, StoredPort(port), api, mining), list);
      assert list.next == if at + 1 == |ring| then ring[0] else ring[at + 1];
      LinkBehind(list, c, at);
      client := c;
    }

    // the pointer updates of addClient
    method LinkBehind(list: Client, c: Client, ghost at: nat)
      requires Valid() && at < |ring| && list == ring[at] && c !in ring
      requires c.next == list.next && c.prev == list && !c.isSentinel && c.sentinel == head
      modifies this`ring, list`next, list.next`prev
      ensures Valid() && ring == old(ring)[..at + 1] + [c] + old(ring)[at + 1..]
    {
      hide AllDifferent, NextRing, PrevRing, Members;
      NextOf(ring, at);
      InsertDifferent(ring, at + 1, c);
      InsertMember(ring, head, at, c);
      LinkNext(list, c, ring, at);
      LinkPrev(c, ring, at);
      ring := ring[..at + 1] + [c] + ring[at + 1..];
    }

    // removeClient
    method RemoveClient(client: Client, ghost at: nat) returns (ok: bool)
      requires Valid() && at < |ring| && client == ring[at]
      modifies this, ring
      ensures Valid() && (ok <==> client != head)
      ensures ring == if ok then old(ring)[..at] + old(ring)[at + 1..] else old(ring)
      ensures forall c | c in old(ring) :: c.Value() == old(c.Value())
    {
      hide AllDifferent, NextRing, PrevRing;
      if client.isSentinel {
        return false;
      }
      NextOf(ring, at);
      PrevOf(ring, at);
      WithoutDifferent(ring, at);
      WithoutMember(ring, head, at);
      UnlinkNext(client, client.prev, ring, at);
      UnlinkPrev(client, client.next, ring, at);
      ring := ring[..at] + ring[at + 1..];
      ok := true;
    }

    // listLen, from any element of the list
    method ListLen(from: Client) returns (res: nat)
      requires Valid() && from in ring
      ensures res == |ring| - 1
    {
      res := 0;
      var client := from.sentinel.next;
      while !client.isSentinel
        invariant res < |ring| && client == if res + 1 == |ring| then head else ring[res + 1]
        decreases |ring| - res
      {
        res := res + 1;
        client := client.next;
      }
    }

    // FindClient
    method FindClient(host: CString, port: Port) returns (res: Client?, ghost at: nat)
      requires Valid()
      ensures at == Find(Values(), host, port)
      ensures res == if Find(Values(), host, port) == |ring| - 1 then null else ring[Find(Values(), host, port) + 1]
    {
      res := null;
      var list := head.sentinel.next;
      at := 0;
      while !list.isSentinel
        invariant at < |ring| && list == if at + 1 == |ring| then head else ring[at + 1]
        invariant forall j | 0 <= j < at :: !SameAddress(host, port, Values()[j].host, Values()[j].port)
        decreases |ring| - at
      {
        if SameAddress(host, port, list.host, list.port) {
          FindIs(Values(), host, port, at);
          return list, at;
        }
        list := list.next;
        at := at + 1;
      }
      FindIs(Values(), host, port, at);
    }

    // one round of addServerFromMessage's loop, under lockKnownServers
    method ApplyRecord(reach: Reachable, r: Record)
      requires Valid() && 0 in r.port
      modifies this, ring
      ensures Valid() && Values() == Apply(reach, old(Values()), r)
      ensures forall i | 0 <= i < |ring| :: ring[i] in old(ring) || fresh(ring[i])
    {
      hide SameAddress, StoredPort, Refresh, Find, Apply;
      var tempClient, at := FindClient(r.host, r.port);
      if tempClient == null {
        AddMissing(reach, r);
      } else {
        RefreshKnown(reach, tempClient, r, at);
      }
    }

    method RefreshKnown(reach: Reachable, tempClient: Client, r: Record, ghost at: nat)
      requires Valid() && 0 in r.port && at == Find(Values(), r.host, r.port) < |Values()| && tempClient == ring[at + 1]
      modifies tempClient`api, tempClient`mining
      ensures Valid() && Values() == Apply(reach, old(Values()), r)
    {
      hide SameAddress, Refresh, Find;
      ghost var was := Values();
      RefreshClient(tempClient, r);
      OneChanged(was, Values(), at, Refresh(was[at], r));
    }

    lemma HeadIsFirst()
      requires Valid()
      ensures |ring| >= 1 && ring[0] == head
    {
    }

    // the addClient of a server that is not known
    method AddMissing(reach: Reachable, r: Record)
      requires Valid() && 0 in r.port && Find(Values(), r.host, r.port) == |Values()|
      modifies this, ring
      ensures Valid() && Values() == Apply(reach, old(Values()), r)
      ensures forall i | 0 <= i < |ring| :: ring[i] in old(ring) || fresh(ring[i])
    {
      hide SameAddress, StoredPort, CutAtNul, Answers, Refresh, Find, Apply, Valid;
      HeadIsFirst();
      ghost var was := Values();
      ApplyMissing(reach, was, r);
      var c := AddClient(head, r.host, r.port, r.api, r.mining, Answers(reach, r), 0);
      if c != null {
        assert ring == [head, c] + old(ring)[1..];
        forall i | 0 <= i < |was|
          ensures Values()[i + 1] == was[i]
        {
          assert ring[i + 2] == old(ring)[i + 1];
        }
        assert Values() == [c.Value()] + was;
      } else {
        assert Values() == was;
      }
    }

    // the flags of a server that is known already
    method RefreshClient(tempClient: Client, r: Record)
      requires Valid() && tempClient in ring && !tempClient.isSentinel
      modifies tempClient`api, tempClient`mining
      ensures Valid() && tempClient.Value() == Refresh(old(tempClient.Value()), r)
      ensures tempClient.api == if r.api == -1 then old(tempClient.api) else r.api
      ensures tempClient.mining == if r.mining == -1 then old(tempClient.mining) else r.mining
    {
      if r.api != -1 {
        tempClient.api := r.api;
      }
      if r.mining != -1 {
        tempClient.mining := r.mining;
      }
    }

    // addServerFromMessage, on a message that holds all it reads
    method AddServerFromMessage(reach: Reachable, data: seq<Byte>)
      requires Valid() && Parse(data, 0).Some?
      modifies this, ring
      ensures Valid() && Values() == ApplyAll(reach, old(Values()), Parse(data, 0).value)
    {
      hide Apply, RecordReadable, ReadRecord, NextRecord, ApplyAll, Parse;
      ghost var was := Values();
      ghost var all := Parse(data, 0).value;
      ghost var done: seq<Record> := [];
      var offset := 0;
      ApplyNone(reach, was);
      while offset < |data|
        invariant Valid() && Parse(data, offset).Some? && done + Parse(data, offset).value == all
        invariant Terminated(done) && Values() == ApplyAll(reach, was, done)
        invariant forall i | 0 <= i < |ring| :: ring[i] in old(ring) || fresh(ring[i])
        decreases |data| - offset
      {
        ParseStep(data, offset);
        var r := ReadRecord(data, offset);
        ghost var rest := Parse(data, NextRecord(data, offset)).value;
        assert done + ([r] + rest) == (done + [r]) + rest;
        ApplySnoc(reach, was, done, r);
        ApplyRecord(reach, r);
        done := done + [r];
        offset := NextRecord(data, offset);
      }
      ParseEnd(data, offset);
      assert done + [] == done;
    }

    // the encoder inside sendNetwork
    method Encode() returns (messageBuff: seq<Byte>)
      requires Valid()
      ensures messageBuff == EncodePeers(Values())
    {
      hide EncodePeer;
      messageBuff := [];
      var client := head.sentinel.next;
      ghost var i := 0;
      while !client.isSentinel
        invariant i < |ring| && client == if i + 1 == |ring| then head else ring[i + 1]
        invariant messageBuff == EncodePeers(Values()[..i])
        decreases |ring| - i
      {
        EncodePeersSnoc(Values()[..i], Values()[i]);
        assert Values()[..i + 1] == Values()[..i] + [Values()[i]];
        messageBuff := messageBuff + EncodePeer(client.Value());
        client := client.next;
        i := i + 1;
      }
      assert Values()[..i] == Values();
    }
  }

  // one message from sendNetwork of one server to addServerFromMessage of another
  method Tell(from: KnownServers, to: KnownServers, reach: Reachable)
    requires from.Valid() && to.Valid() && PeersFit(from.Values())
    requires from != to && forall c | c in from.ring :: c !in to.ring
    modifies to, to.ring
    ensures to.Valid()
    ensures Terminated(old(from.Values())) && to.Values() == ApplyAll(reach, old(to.Values()), old(from.Values()))
  {
    hide EncodePeer, Parse, ApplyAll, AllDifferent, NextRing, PrevRing, Terminated;
    ghost var told := from.Values();
    FitIsTerminated(told);
    PeersRoundTrip(told);
    var data := from.Encode();
    to.AddServerFromMessage(reach, data);
  }

  lemma FitIsTerminated(l: seq<Peer>)
    requires PeersFit(l)
    ensures Terminated(l)
  {
    forall i | 0 <= i < |l|
      ensures 0 in l[i].port
    {
      assert l[i] in l;
    }
  }

  lemma ApplyMissing(reach: Reachable, l: seq<Peer>, r: Record)
    requires 0 in r.port && Find(l, r.host, r.port) == |l|
    ensures Apply(reach, l, r) ==
            if Answers(reach, r) then [Stored(r)] + l else l
  {
  }

  lemma OneChanged(l: seq<Peer>, m: seq<Peer>, k: nat, p: Peer)
    requires |l| == |m| && k < |l| && m[k] == p
    requires forall i | 0 <= i < |l| && i != k :: m[i] == l[i]
    ensures m == l[k := p]
  {
  }

  lemma ParseStep(data: seq<Byte>, offset: nat)
    requires offset < |data| && Parse(data, offset).Some?
    ensures RecordReadable(data, offset) && Parse(data, NextRecord(data, offset)).Some?
    ensures Parse(data, offset).value == [ReadRecord(data, offset)] + Parse(data, NextRecord(data, offset)).value
  {
    hide RecordReadable, ReadRecord, NextRecord;
  }

  lemma ParseEnd(data: seq<Byte>, offset: nat)
    requires |data| <= offset
    ensures Parse(data, offset) == Some([])
  {
  }

  lemma ApplyNone(reach: Reachable, l: seq<Peer>)
    ensures ApplyAll(reach, l, []) == l
  {
  }

  lemma ApplySnoc(reach: Reachable, l: seq<Peer>, rs: seq<Record>, r: Record)
    requires Terminated(rs) && 0 in r.port
    ensures Terminated(rs + [r]) && ApplyAll(reach, l, rs + [r]) == Apply(reach, ApplyAll(reach, l, rs), r)
  {
    hide Apply;
    assert (rs + [r])[..|rs|] == rs;
  }
}
