/** The known servers as a list of values, and the message that spreads them. */
module Peers {
  import opened Bytes
  import opened Codec

  /** The port field of struct address: at most five characters and a terminator. */
  type Port = p: seq<Byte> | |p| == 6 witness [0, 0, 0, 0, 0, 0]

  /** A C int. */
  type Int32 = x: int | -0x8000_0000 <= x < 0x8000_0000

  datatype Peer = Peer(host: CString, port: Port, api: Int32, mining: Int32)

  // sameIP compares whole host names but only five bytes of the port
  predicate SameAddress(host1: CString, port1: Port, host2: CString, port2: Port) {
    host1 == host2 && port1[..5] == port2[..5]
  }

  /** What addClient stores: the port up to its terminator, in a zeroed field. */
  function StoredPort(port: Port): Port
    requires 0 in port
  {
    CutAtNulKeeps(port);
    CutAtNul(port) + seq(6 - |CutAtNul(port)|, _ => 0)
  }

  /** Nothing but zeros behind the first terminator, as in every stored port. */
  predicate CleanPort(port: Port) {
    0 in port && port == StoredPort(port)
  }

  lemma {:induction false} CutAtNulPadded(s: CString, zeros: nat)
    ensures CutAtNul(s + seq(zeros, _ => 0)) == s
  {
    var t := s + seq(zeros, _ => 0);
    if s != [] {
      assert t[1..] == s[1..] + seq(zeros, _ => 0);
      CutAtNulPadded(s[1..], zeros);
    }
  }

  lemma StoredPortIsClean(port: Port)
    requires 0 in port
    ensures CleanPort(StoredPort(port))
  {
    CutAtNulKeeps(port);
    var s := CutAtNul(port);
    assert StoredPort(port)[5] == 0;
    CutAtNulPadded(s, 6 - |s|);
  }

  /** FindClient: the first peer with the address, or the length of the list. */
  function Find(l: seq<Peer>, host: CString, port: Port): (i: nat)
    ensures i <= |l|
    ensures i < |l| ==> SameAddress(host, port, l[i].host, l[i].port)
    ensures forall j | 0 <= j < i :: !SameAddress(host, port, l[j].host, l[j].port)
  {
    if l == [] || SameAddress(host, port, l[0].host, l[0].port) then 0 else 1 + Find(l[1..], host, port)
  }

  /** One record of a TYPE_NETWORK message; -1 in a flag leaves it as it is. */
  type Record = Peer

  /** Whether a connection to a host name and a port, both C strings, succeeds. */
  type Reachable = (CString, CString) -> bool

  predicate Answers(reach: Reachable, r: Record) {
    reach(r.host, CutAtNul(r.port))
  }

  function Refresh(p: Peer, r: Record): Peer {
    p.(api := if r.api != -1 then r.api else p.api, mining := if r.mining != -1 then r.mining else p.mining)
  }

  /** The peer that addClient makes of a record. */
  function Stored(r: Record): Peer
    requires 0 in r.port
  {
    Peer(r.host, StoredPort(r.port), r.api, r.mining)
  }

  /** One round of addServerFromMessage's loop; a new peer goes right behind the sentinel. */
  function Apply(reach: Reachable, l: seq<Peer>, r: Record): seq<Peer>
    requires 0 in r.port
  {
    var i := Find(l, r.host, r.port);
    if i < |l| then l[i := Refresh(l[i], r)]
    else if Answers(reach, r) then [Stored(r)] + l
    else l
  }

  predicate Terminated(rs: seq<Record>) {
    forall i | 0 <= i < |rs| :: 0 in rs[i].port
  }

  function ApplyAll(reach: Reachable, l: seq<Peer>, rs: seq<Record>): seq<Peer>
    requires Terminated(rs)
  {
    if rs == [] then l else Apply(reach, ApplyAll(reach, l, rs[..|rs| - 1]), rs[|rs| - 1])
  }

  predicate Distinct(l: seq<Peer>) {
    forall i, j | 0 <= i < j < |l| :: !SameAddress(l[i].host, l[i].port, l[j].host, l[j].port)
  }

  predicate Clean(l: seq<Peer>) {
    forall i | 0 <= i < |l| :: CleanPort(l[i].port)
  }

  /** The port that would be stored agrees with the record's in the five bytes that are compared. */
  predicate FiveClean(port: Port)
    requires 0 in port
  {
    port[..5] == StoredPort(port)[..5]
  }

  /** If the record's server is stored, it is found again under the record's address. */
  predicate Storable(reach: Reachable, r: Record)
    requires 0 in r.port
  {
    Answers(reach, r) ==> FiveClean(r.port)
  }

  predicate AllStorable(reach: Reachable, rs: seq<Record>)
    requires Terminated(rs)
  {
    forall i | 0 <= i < |rs| :: Storable(reach, rs[i])
  }

  // --- what the operations do, field by field

  /** Equal host names, and ports equal in their first five bytes. */
  lemma SameAddressMeans(host1: CString, port1: Port, host2: CString, port2: Port)
    ensures SameAddress(host1, port1, host2, port2) <==> host1 == host2 && forall i | 0 <= i < 5 :: port1[i] == port2[i]
  {
    if forall i | 0 <= i < 5 :: port1[i] == port2[i] {
      assert port1[..5] == port2[..5];
    } else {
      var i :| 0 <= i < 5 && port1[i] != port2[i];
      assert port1[..5][i] != port2[..5][i];
    }
  }

  /** The port up to its first NUL, and zeros from there on. */
  lemma StoredPortBytes(port: Port)
    requires 0 in port
    ensures var n := |CutAtNul(port)|;
            && n < 6 && port[n] == 0 && (forall i | 0 <= i < n :: port[i] != 0 && StoredPort(port)[i] == port[i])
            && forall i | n <= i < 6 :: StoredPort(port)[i] == 0
  {
    hide CutAtNul;
    CutAtNulKeeps(port);
    CutAtNulIs(port);
    assert forall i | 0 <= i < |CutAtNul(port)| :: port[i] == CutAtNul(port)[i] && CutAtNul(port)[i] in CutAtNul(port);
  }

  /**
   The first peer with the record's address takes the record's flags, except those that are -1.
   Where there is none, a reachable server goes in front, with the record's flags and a cleaned port.
   */
  lemma ApplyExactly(reach: Reachable, l: seq<Peer>, r: Record, i: nat)
    requires 0 in r.port && i <= |l|
    requires forall j | 0 <= j < i :: !SameAddress(r.host, r.port, l[j].host, l[j].port)
    requires i < |l| ==> SameAddress(r.host, r.port, l[i].host, l[i].port)
    ensures var m := Apply(reach, l, r);
            if i < |l| then
              && |m| == |l| && (forall j | 0 <= j < |l| && j != i :: m[j] == l[j])
              && m[i].host == l[i].host && m[i].port == l[i].port
              && m[i].api == (if r.api == -1 then l[i].api else r.api)
              && m[i].mining == (if r.mining == -1 then l[i].mining else r.mining)
            else if reach(r.host, CutAtNul(r.port)) then
              && |m| == |l| + 1 && m[1..] == l
              && m[0].host == r.host && m[0].port == StoredPort(r.port) && m[0].api == r.api && m[0].mining == r.mining
            else m == l
  {
    hide StoredPort, CutAtNul, Find, SameAddress;
    FindIs(l, r.host, r.port, i);
  }

  lemma {:induction false} FindIs(l: seq<Peer>, host: CString, port: Port, i: nat)
    requires i <= |l| && forall j | 0 <= j < i :: !SameAddress(host, port, l[j].host, l[j].port)
    requires i < |l| ==> SameAddress(host, port, l[i].host, l[i].port)
    ensures Find(l, host, port) == i
  {
    if i > 0 {
      assert !SameAddress(host, port, l[0].host, l[0].port);
      FindIs(l[1..], host, port, i - 1);
    }
  }

  // --- ports

  lemma {:induction false} CutAtNulAgrees(s: seq<Byte>, t: seq<Byte>, n: nat)
    requires n <= |s| && n <= |t| && s[..n] == t[..n] && 0 in s[..n]
    ensures CutAtNul(s) == CutAtNul(t)
  {
    assert s[0] == s[..n][0] && t[0] == t[..n][0];
    if s[0] != 0 {
      assert s[..n] == [s[0]] + s[1..][..n - 1] && t[..n] == [t[0]] + t[1..][..n - 1];
      assert s[1..][..n - 1] == s[..n][1..] && t[1..][..n - 1] == t[..n][1..];
      CutAtNulAgrees(s[1..], t[1..], n - 1);
    }
  }

  /** Ports that agree in five bytes are one C string. */
  lemma FiveBytesDecide(p: Port, q: Port)
    requires 0 in p && 0 in q && p[..5] == q[..5]
    ensures CutAtNul(p) == CutAtNul(q) && StoredPort(p) == StoredPort(q)
  {
    if 0 in p[..5] {
      CutAtNulAgrees(p, q, 5);
    } else {
      assert p == p[..5] + [p[5]] && q == q[..5] + [q[5]];
      assert p[5] == 0 && q[5] == 0;
    }
  }

  lemma AnswersByAddress(reach: Reachable, r: Record, s: Record)
    requires 0 in r.port && 0 in s.port && SameAddress(r.host, r.port, s.host, s.port)
    ensures Answers(reach, r) == Answers(reach, s)
  {
    hide CutAtNul;
    FiveBytesDecide(r.port, s.port);
  }

  /** No clean port agrees in five bytes with one that is not clean there. */
  lemma CleanIsFiveClean(p: Port, q: Port)
    requires CleanPort(q) && 0 in p && p[..5] == q[..5]
    ensures FiveClean(p)
  {
    hide StoredPort;
    FiveBytesDecide(p, q);
  }

  // --- finding

  lemma {:induction false} FindSame(l: seq<Peer>, host1: CString, port1: Port, host2: CString, port2: Port)
    requires SameAddress(host1, port1, host2, port2)
    ensures Find(l, host1, port1) == Find(l, host2, port2)
  {
    if l != [] {
      FindSame(l[1..], host1, port1, host2, port2);
    }
  }

  /** The peer is the one FindClient finds under its address. */
  predicate First(l: seq<Peer>, i: nat) {
    i < |l| && Find(l, l[i].host, l[i].port) == i
  }

  lemma DistinctAreFirst(l: seq<Peer>, i: nat)
    requires Distinct(l) && i < |l|
    ensures First(l, i)
  {
    assert SameAddress(l[i].host, l[i].port, l[i].host, l[i].port);
    forall j | 0 <= j < i
      ensures !SameAddress(l[i].host, l[i].port, l[j].host, l[j].port)
    {
      assert !SameAddress(l[j].host, l[j].port, l[i].host, l[i].port);
    }
  }

  /** Finding depends on the addresses in the list alone. */
  lemma {:induction false} FindByAddresses(l: seq<Peer>, m: seq<Peer>, host: CString, port: Port)
    requires |l| == |m| && forall i | 0 <= i < |l| :: l[i].host == m[i].host && l[i].port == m[i].port
    ensures Find(l, host, port) == Find(m, host, port)
  {
    if l != [] {
      FindByAddresses(l[1..], m[1..], host, port);
    }
  }

  lemma FindBehind(p: Peer, l: seq<Peer>, host: CString, port: Port)
    ensures Find([p] + l, host, port) == if SameAddress(host, port, p.host, p.port) then 0 else Find(l, host, port) + 1
  {
    assert ([p] + l)[1..] == l;
  }

  // --- duplicates

  lemma ApplyKeeps(reach: Reachable, l: seq<Peer>, r: Record)
    requires 0 in r.port
    ensures Clean(l) ==> Clean(Apply(reach, l, r))
    ensures Distinct(l) && Storable(reach, r) ==> Distinct(Apply(reach, l, r))
  {
    hide CleanPort, StoredPort;
    StoredPortIsClean(r.port);
  }

  /**
   A record of a reachable server keeps every list free of duplicate addresses exactly when its
   port is clean in the five bytes that are compared: the stored port is then the one looked for.
   */
  lemma NoDuplicatesExactly(reach: Reachable, r: Record)
    requires 0 in r.port && Answers(reach, r)
    ensures (forall l | Distinct(l) :: Distinct(Apply(reach, l, r))) <==> FiveClean(r.port)
  {
    if FiveClean(r.port) {
      forall l | Distinct(l)
        ensures Distinct(Apply(reach, l, r))
      {
        ApplyKeeps(reach, l, r);
      }
    } else {
      var m := Apply(reach, [Stored(r)], r);
      assert m == [Stored(r), Stored(r)];
      assert Distinct([Stored(r)]) && SameAddress(m[0].host, m[0].port, m[1].host, m[1].port);
    }
  }

  /** The record needs no further work on the list: its peer is there or cannot be reached. */
  predicate Settled(reach: Reachable, l: seq<Peer>, r: Record) {
    Find(l, r.host, r.port) < |l| || !Answers(reach, r)
  }

  predicate AllSettled(reach: Reachable, l: seq<Peer>, rs: seq<Record>) {
    forall i | 0 <= i < |rs| :: Settled(reach, l, rs[i])
  }

  lemma ApplySettles(reach: Reachable, l: seq<Peer>, r: Record, s: Record)
    requires 0 in r.port && Storable(reach, r)
    ensures Settled(reach, Apply(reach, l, r), r)
    ensures Settled(reach, l, s) ==> Settled(reach, Apply(reach, l, r), s)
  {
    hide StoredPort, CutAtNul, Find;
    var i := Find(l, r.host, r.port);
    if i < |l| {
      var m := l[i := Refresh(l[i], r)];
      FindByAddresses(l, m, r.host, r.port);
      FindByAddresses(l, m, s.host, s.port);
    } else if Answers(reach, r) {
      FindBehind(Stored(r), l, r.host, r.port);
      FindBehind(Stored(r), l, s.host, s.port);
    }
  }

  /** A message keeps a list free of duplicates, and each record's server is then known or unreachable. */
  lemma {:induction false} ApplyAllKeeps(reach: Reachable, l: seq<Peer>, rs: seq<Record>)
    requires Terminated(rs) && AllStorable(reach, rs)
    ensures Distinct(l) ==> Distinct(ApplyAll(reach, l, rs))
    ensures Clean(l) ==> Clean(ApplyAll(reach, l, rs))
    ensures AllSettled(reach, ApplyAll(reach, l, rs), rs)
  {
    hide Distinct, Clean, Settled, Apply, Storable;
    if rs != [] {
      var front, last := rs[..|rs| - 1], rs[|rs| - 1];
      StorableFront(reach, rs);
      ApplyAllKeeps(reach, l, front);
      var m := ApplyAll(reach, l, front);
      ApplyKeeps(reach, m, last);
      forall i | 0 <= i < |rs|
        ensures Settled(reach, Apply(reach, m, last), rs[i])
      {
        assert i < |front| ==> rs[i] == front[i];
        ApplySettles(reach, m, last, rs[i]);
      }
    }
  }

  lemma StorableFront(reach: Reachable, rs: seq<Record>)
    requires rs != [] && Terminated(rs) && AllStorable(reach, rs)
    ensures Terminated(rs[..|rs| - 1]) && AllStorable(reach, rs[..|rs| - 1])
    ensures 0 in rs[|rs| - 1].port && Storable(reach, rs[|rs| - 1])
  {
    hide Storable;
  }

  // --- flags

  /** The last value the records give to the api flag of an address. */
  function LastApi(rs: seq<Record>, host: CString, port: Port): Option<Int32> {
    if rs == [] then None else
      var r := rs[|rs| - 1];
      if SameAddress(r.host, r.port, host, port) && r.api != -1 then Some(r.api)
      else LastApi(rs[..|rs| - 1], host, port)
  }

  function LastMining(rs: seq<Record>, host: CString, port: Port): Option<Int32> {
    if rs == [] then None else
      var r := rs[|rs| - 1];
      if SameAddress(r.host, r.port, host, port) && r.mining != -1 then Some(r.mining)
      else LastMining(rs[..|rs| - 1], host, port)
  }

  function Or(o: Option<Int32>, default: Int32): Int32 { if o.Some? then o.value else default }

  /** p as the records leave it, if they find it. */
  function Refreshed(p: Peer, rs: seq<Record>): Peer {
    p.(api := Or(LastApi(rs, p.host, p.port), p.api), mining := Or(LastMining(rs, p.host, p.port), p.mining))
  }

  /** Of several peers with one address the records find the first. */
  function RefreshedAt(l: seq<Peer>, i: nat, rs: seq<Record>): Peer
    requires i < |l|
  {
    if First(l, i) then Refreshed(l[i], rs) else l[i]
  }

  lemma RefreshedSnoc(p: Peer, front: seq<Record>, last: Record)
    ensures Refreshed(p, front + [last]) ==
            if SameAddress(last.host, last.port, p.host, p.port) then Refresh(Refreshed(p, front), last)
            else Refreshed(p, front)
  {
    assert (front + [last])[..|front|] == front;
  }

  /** On a list for which every record is settled, the records only refresh the flags. */
  lemma {:induction false} SettledOnlyRefreshes(reach: Reachable, l: seq<Peer>, rs: seq<Record>)
    requires Terminated(rs) && AllSettled(reach, l, rs)
    ensures |ApplyAll(reach, l, rs)| == |l|
    ensures forall i | 0 <= i < |l| :: ApplyAll(reach, l, rs)[i] == RefreshedAt(l, i, rs)
    ensures Distinct(l) ==> forall i | 0 <= i < |l| :: ApplyAll(reach, l, rs)[i] == Refreshed(l[i], rs)
  {
    hide Distinct, First, Apply, LastApi, LastMining, SameAddress;
    if rs == [] {
      NoRecordsRefresh(l);
    } else {
      var front, last := rs[..|rs| - 1], rs[|rs| - 1];
      assert AllSettled(reach, l, front) && Settled(reach, l, last);
      SettledOnlyRefreshes(reach, l, front);
      RefreshOne(reach, l, ApplyAll(reach, l, front), front, last);
      assert front + [last] == rs;
    }
    forall i | 0 <= i < |l| && Distinct(l)
      ensures First(l, i)
    {
      DistinctAreFirst(l, i);
    }
  }

  lemma NoRecordsRefresh(l: seq<Peer>)
    ensures forall i | 0 <= i < |l| :: RefreshedAt(l, i, []) == l[i]
  {
  }

  lemma RefreshOne(reach: Reachable, l: seq<Peer>, m: seq<Peer>, front: seq<Record>, last: Record)
    requires 0 in last.port && Settled(reach, l, last)
    requires |m| == |l| && forall i | 0 <= i < |l| :: m[i] == RefreshedAt(l, i, front)
    ensures |Apply(reach, m, last)| == |l|
    ensures forall i | 0 <= i < |l| :: Apply(reach, m, last)[i] == RefreshedAt(l, i, front + [last])
  {
    hide LastApi, LastMining, First, Find, SameAddress;
    FindByAddresses(l, m, last.host, last.port);
    var k := Find(l, last.host, last.port);
    forall i | 0 <= i < |l|
      ensures Apply(reach, m, last)[i] == RefreshedAt(l, i, front + [last])
    {
      RefreshedSnoc(l[i], front, last);
      FirstIsFound(l, i, last);
    }
  }

  /** The first peer of an address is the one a record with that address finds. */
  lemma FirstIsFound(l: seq<Peer>, i: nat, r: Record)
    requires i < |l|
    ensures First(l, i) && SameAddress(r.host, r.port, l[i].host, l[i].port) <==> Find(l, r.host, r.port) == i
  {
    hide Find;
    if SameAddress(r.host, r.port, l[i].host, l[i].port) {
      FindSame(l, r.host, r.port, l[i].host, l[i].port);
    }
  }

  /** Refreshing by the records again changes no peer that they find. */
  predicate Saturated(l: seq<Peer>, rs: seq<Record>) {
    forall i | 0 <= i < |l| && First(l, i) :: Refreshed(l[i], rs) == l[i]
  }

  lemma {:induction false} ApplyAllSaturates(reach: Reachable, l: seq<Peer>, rs: seq<Record>)
    requires Terminated(rs) && AllStorable(reach, rs)
    ensures Saturated(ApplyAll(reach, l, rs), rs)
  {
    hide Storable, Apply, AllSettled, LastApi, LastMining;
    if rs == [] {
      NoRecordsSaturate(l);
    } else {
      var front, last := rs[..|rs| - 1], rs[|rs| - 1];
      StorableFront(reach, rs);
      ApplyAllKeeps(reach, l, front);
      ApplyAllSaturates(reach, l, front);
      SaturateOne(reach, ApplyAll(reach, l, front), front, last);
      assert front + [last] == rs;
    }
  }

  lemma NoRecordsSaturate(l: seq<Peer>)
    ensures Saturated(l, [])
  {
  }

  lemma SaturateOne(reach: Reachable, m: seq<Peer>, front: seq<Record>, last: Record)
    requires Terminated(front) && 0 in last.port && Storable(reach, last)
    requires AllSettled(reach, m, front) && Saturated(m, front)
    ensures Saturated(Apply(reach, m, last), front + [last])
  {
    hide LastApi, LastMining, First, Find, SameAddress, Settled, CutAtNul, StoredPort;
    var n := Apply(reach, m, last);
    var k := Find(m, last.host, last.port);
    forall i | 0 <= i < |n| && First(n, i)
      ensures Refreshed(n[i], front + [last]) == n[i]
    {
      RefreshedSnoc(n[i], front, last);
      if |n| > |m| {
        SaturateNew(reach, m, front, last, i);
      } else {
        FirstStays(m, n, i);
        FirstIsFound(m, i, last);
        RefreshedFlags(m[i], n[i], front);
      }
    }
  }

  lemma FirstStays(m: seq<Peer>, n: seq<Peer>, i: nat)
    requires |m| == |n| && i < |m| && First(n, i)
    requires forall j | 0 <= j < |m| :: m[j].host == n[j].host && m[j].port == n[j].port
    ensures First(m, i)
  {
    hide Find;
    FindByAddresses(m, n, n[i].host, n[i].port);
  }

  lemma SaturateNew(reach: Reachable, m: seq<Peer>, front: seq<Record>, last: Record, i: nat)
    requires Terminated(front) && 0 in last.port && Answers(reach, last) && FiveClean(last.port)
    requires AllSettled(reach, m, front) && Saturated(m, front) && Find(m, last.host, last.port) == |m|
    requires First([Stored(last)] + m, i)
    ensures var n := [Stored(last)] + m;
            Refreshed(n[i], front) == n[i]
            && (SameAddress(last.host, last.port, n[i].host, n[i].port) ==> Refresh(n[i], last) == n[i])
  {
    hide LastApi, LastMining, Find, Settled, CutAtNul, StoredPort;
    var n := [Stored(last)] + m;
    if i == 0 {
      NewPeerUnnamed(reach, m, front, last);
    } else {
      assert n[i] == m[i - 1];
      FindBehind(Stored(last), m, m[i - 1].host, m[i - 1].port);
      assert First(m, i - 1);
      assert !SameAddress(last.host, last.port, m[i - 1].host, m[i - 1].port);
    }
  }

  /** What the records say about a peer depends on its address alone. */
  lemma RefreshedFlags(p: Peer, q: Peer, rs: seq<Record>)
    requires p.host == q.host && p.port == q.port && Refreshed(p, rs) == p
    ensures Refreshed(q, rs) == q.(api := Or(LastApi(rs, p.host, p.port), q.api),
                                   mining := Or(LastMining(rs, p.host, p.port), q.mining))
    ensures LastApi(rs, p.host, p.port).Some? ==> LastApi(rs, p.host, p.port).value == p.api
    ensures LastMining(rs, p.host, p.port).Some? ==> LastMining(rs, p.host, p.port).value == p.mining
  {
  }

  /** A reachable address that is still missing has not been named by an earlier record. */
  lemma NewPeerUnnamed(reach: Reachable, m: seq<Peer>, front: seq<Record>, last: Record)
    requires Terminated(front) && 0 in last.port && Answers(reach, last) && FiveClean(last.port)
    requires AllSettled(reach, m, front) && Find(m, last.host, last.port) == |m|
    ensures LastApi(front, last.host, StoredPort(last.port)).None?
    ensures LastMining(front, last.host, StoredPort(last.port)).None?
  {
    hide StoredPort, CutAtNul, Find;
    forall i | 0 <= i < |front|
      ensures !SameAddress(front[i].host, front[i].port, last.host, StoredPort(last.port))
    {
      assert Settled(reach, m, front[i]);
      if SameAddress(front[i].host, front[i].port, last.host, last.port) {
        AnswersByAddress(reach, front[i], last);
        FindSame(m, front[i].host, front[i].port, last.host, last.port);
      }
    }
    UnnamedHasNoFlags(front, last.host, StoredPort(last.port));
  }

  lemma {:induction false} UnnamedHasNoFlags(rs: seq<Record>, host: CString, port: Port)
    requires forall i | 0 <= i < |rs| :: !SameAddress(rs[i].host, rs[i].port, host, port)
    ensures LastApi(rs, host, port).None? && LastMining(rs, host, port).None?
  {
    if rs != [] {
      UnnamedHasNoFlags(rs[..|rs| - 1], host, port);
    }
  }

  /** The same message a second time, with the same servers reachable, changes nothing. */
  lemma MessageIdempotent(reach: Reachable, l: seq<Peer>, rs: seq<Record>)
    requires Terminated(rs) && AllStorable(reach, rs)
    ensures ApplyAll(reach, ApplyAll(reach, l, rs), rs) == ApplyAll(reach, l, rs)
  {
    hide LastApi, LastMining, First, AllStorable, Apply, ApplyAll;
    var m := ApplyAll(reach, l, rs);
    ApplyAllKeeps(reach, l, rs);
    ApplyAllSaturates(reach, l, rs);
    SettledOnlyRefreshes(reach, m, rs);
  }

  /** A reachable record that is not clean in five bytes is added to every list of stored peers. */
  lemma UncleanAdds(reach: Reachable, l: seq<Peer>, r: Record)
    requires 0 in r.port && Clean(l) && !Storable(reach, r)
    ensures |Apply(reach, l, r)| == |l| + 1
  {
    hide StoredPort, CleanPort, CutAtNul;
    var i := Find(l, r.host, r.port);
    if i < |l| {
      CleanIsFiveClean(r.port, l[i].port);
      assert false;
    }
  }

  lemma {:induction false} ApplyAllGrows(reach: Reachable, l: seq<Peer>, rs: seq<Record>)
    requires Terminated(rs) && Clean(l)
    ensures Clean(ApplyAll(reach, l, rs)) && |ApplyAll(reach, l, rs)| >= |l|
    ensures !AllStorable(reach, rs) ==> |ApplyAll(reach, l, rs)| > |l|
  {
    hide Clean, Storable;
    if rs != [] {
      var front, last := rs[..|rs| - 1], rs[|rs| - 1];
      assert 0 in last.port && Terminated(front);
      ApplyAllGrows(reach, l, front);
      ApplyKeeps(reach, ApplyAll(reach, l, front), last);
      if Storable(reach, last) {
        assert AllStorable(reach, front) ==> AllStorable(reach, rs);
      } else {
        UncleanAdds(reach, ApplyAll(reach, l, front), last);
      }
    }
  }

  /**
   A message is idempotent on every list exactly when each of its records whose server can be
   reached has a port clean in the five bytes that are compared.
   */
  lemma MessageIdempotentExactly(reach: Reachable, rs: seq<Record>)
    requires Terminated(rs)
    ensures (forall l :: ApplyAll(reach, ApplyAll(reach, l, rs), rs) == ApplyAll(reach, l, rs)) <==> AllStorable(reach, rs)
  {
    hide AllStorable, ApplyAll;
    if AllStorable(reach, rs) {
      forall l: seq<Peer>
        ensures ApplyAll(reach, ApplyAll(reach, l, rs), rs) == ApplyAll(reach, l, rs)
      {
        MessageIdempotent(reach, l, rs);
      }
    } else {
      assert Clean([]);
      ApplyAllGrows(reach, [], rs);
      ApplyAllGrows(reach, ApplyAll(reach, [], rs), rs);
    }
  }
}
