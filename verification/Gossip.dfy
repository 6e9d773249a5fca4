/**
 Nodes that exchange their chains. A node keeps the better of its own chain and the one it
 is sent, so what it ends up with does not depend on the order, and a full exchange leaves
 all nodes level.
 */
module Gossip {
  import opened Bytes
  import opened Blocks
  import opened Ledger
  import opened Protocol
  import opened Codec
  import opened RoundTrips

  predicate AsGood(c: seq<Block>, d: seq<Block>)
    requires c != []
  {
    !Better(d, c)
  }

  predicate SameRank(c: seq<Block>, d: seq<Block>)
    requires c != [] && d != []
  {
    |c| == |d| && Tip(c).time == Tip(d).time
  }

  lemma AsGoodTransitive(c: seq<Block>, d: seq<Block>, e: seq<Block>)
    requires c != [] && d != [] && AsGood(c, d) && AsGood(d, e)
    ensures AsGood(c, e)
  {
  }

  lemma AsGoodMeans(c: seq<Block>, d: seq<Block>)
    requires c != []
    ensures AsGood(c, d) <==> |d| <= |c| && (|d| == |c| ==> Tip(c).time <= Tip(d).time)
  {
  }

  lemma AsGoodBothWays(c: seq<Block>, d: seq<Block>)
    requires c != [] && d != []
    ensures SameRank(c, d) <==> AsGood(c, d) && AsGood(d, c)
  {
  }

  /** What the chain is after a chain message. */
  function Adopt(H: Hash, chain: seq<Block>, c: seq<Block>): (r: seq<Block>)
    requires chain != []
    ensures r != [] && (r == chain || (r == c && ValidChain(H, c)))
    ensures AsGood(r, chain) && (ValidChain(H, c) ==> AsGood(r, c))
  {
    if Adopts(H, chain, c) then c else chain
  }

  function AdoptAll(H: Hash, chain: seq<Block>, cs: seq<seq<Block>>): (r: seq<Block>)
    requires chain != []
    ensures r != []
  {
    if cs == [] then chain else Adopt(H, AdoptAll(H, chain, cs[..|cs| - 1]), cs[|cs| - 1])
  }

  /** The node ends up with one of the chains, as good as its own and as every valid one it was sent. */
  lemma {:induction false} AdoptAllIsBest(H: Hash, chain: seq<Block>, cs: seq<seq<Block>>)
    requires chain != []
    ensures var r := AdoptAll(H, chain, cs);
            && (r == chain || (r in cs && ValidChain(H, r)))
            && AsGood(r, chain)
            && forall c | c in cs && ValidChain(H, c) :: AsGood(r, c)
    ensures var r := AdoptAll(H, chain, cs);
            forall c | c == chain || (c in cs && ValidChain(H, c)) ::
              |c| <= |r| && (|c| == |r| ==> Tip(r).time <= Tip(c).time)
  {
    hide ValidChain, AsGood, Adopt;
    if cs == [] {
      AsGoodBothWays(chain, chain);
    } else {
      var front, last := cs[..|cs| - 1], cs[|cs| - 1];
      AdoptAllIsBest(H, chain, front);
      var q, r := AdoptAll(H, chain, front), AdoptAll(H, chain, cs);
      AsGoodTransitive(r, q, chain);
      forall c | c in cs && ValidChain(H, c)
        ensures AsGood(r, c)
      {
        if c in front {
          AsGoodTransitive(r, q, c);
        }
      }
    }
    var r := AdoptAll(H, chain, cs);
    forall c | c == chain || (c in cs && ValidChain(H, c))
      ensures |c| <= |r| && (|c| == |r| ==> Tip(r).time <= Tip(c).time)
    {
      AsGoodMeans(r, c);
    }
  }

  /** Neither the order of the messages nor their repetition changes the final rank. */
  lemma OrderIsIrrelevant(H: Hash, chain: seq<Block>, cs: seq<seq<Block>>, ds: seq<seq<Block>>)
    requires chain != [] && forall c :: c in cs <==> c in ds
    ensures SameRank(AdoptAll(H, chain, cs), AdoptAll(H, chain, ds))
    ensures var q, r := AdoptAll(H, chain, cs), AdoptAll(H, chain, ds);
            |q| == |r| && Tip(q).time == Tip(r).time
  {
    hide ValidChain, AsGood, AdoptAll;
    AdoptAllIsBest(H, chain, cs);
    AdoptAllIsBest(H, chain, ds);
    AsGoodBothWays(AdoptAll(H, chain, cs), AdoptAll(H, chain, ds));
  }

  /** At least as long, and with a tip no later where the lengths are equal. */
  predicate NotBehind(c: seq<Block>, d: seq<Block>)
    requires c != []
  {
    |d| <= |c| && (|d| == |c| ==> c[|c| - 1].time <= d[|d| - 1].time)
  }

  lemma NotBehindIs(c: seq<Block>, d: seq<Block>)
    requires c != []
    ensures NotBehind(c, d) <==> AsGood(c, d)
  {
  }

  /** The bytes of a TYPE_BLOCKCHAIN message. */
  function Packet(c: seq<Block>): seq<Byte> {
    EncodeMessage(Message(3, EncodeChain(c)))
  }

  /** The wire keeps all that was ever sent, so that a message may come late, twice or never. */
  datatype Network = Network(nodes: seq<State>, wire: seq<seq<Byte>>)

  datatype NetEvent =
    | Broadcast(i: nat)
    | Deliver(k: nat, j: nat)    // packet k reaches node j
    | Local(j: nat, e: Event)    // node j does something else

  /** A round without mining: no node takes a block from its miner. */
  predicate Quiet(e: NetEvent) {
    e.Local? ==> !e.e.MinedBlock? && !e.e.ChainMessage?
  }

  predicate AllQuiet(es: seq<NetEvent>) {
    forall k | 0 <= k < |es| :: Quiet(es[k])
  }

  predicate HaveChains(net: Network) {
    forall j | 0 <= j < |net.nodes| :: net.nodes[j].chain != []
  }

  function Hears(H: Hash, s: State, packet: seq<Byte>): (r: State)
    requires s.chain != []
    ensures r.chain != []
  {
    match DecodeMessage(packet)
    case None => s
    case Some(m) =>
      if m.kind != 3 then s else
        match DecodeChain(m.data)
        case None => s
        case Some(c) => Step(H, s, ChainMessage(c))
  }

  function NetStep(H: Hash, net: Network, e: NetEvent): (r: Network)
    requires HaveChains(net)
    ensures HaveChains(r) && |r.nodes| == |net.nodes|
  {
    match e
    case Broadcast(i) =>
      if i < |net.nodes| then net.(wire := net.wire + [Packet(net.nodes[i].chain)]) else net
    case Deliver(k, j) =>
      if j < |net.nodes| && k < |net.wire| then net.(nodes := net.nodes[j := Hears(H, net.nodes[j], net.wire[k])]) else net
    case Local(j, e) =>
      if j < |net.nodes| then net.(nodes := net.nodes[j := Step(H, net.nodes[j], e)]) else net
  }

  function NetRun(H: Hash, net: Network, es: seq<NetEvent>): (r: Network)
    requires HaveChains(net)
    ensures HaveChains(r) && |r.nodes| == |net.nodes|
  {
    if es == [] then net else NetStep(H, NetRun(H, net, es[..|es| - 1]), es[|es| - 1])
  }

  /** Valid chains that the 8-byte lengths of the format can hold. */
  predicate Sendable(H: Hash, cs: seq<seq<Block>>) {
    forall i | 0 <= i < |cs| ::
      cs[i] != [] && ValidChain(H, cs[i]) && ChainFits(cs[i]) && |EncodeChain(cs[i])| < U64_LIMIT
  }

  /** Only chains of cs are held or have been sent. */
  ghost predicate Circulates(cs: seq<seq<Block>>, net: Network) {
    && (forall j | 0 <= j < |net.nodes| :: net.nodes[j].chain in cs)
    && (forall k | 0 <= k < |net.wire| :: exists i :: 0 <= i < |cs| && net.wire[k] == Packet(cs[i]))
  }

  /** Hearing the packet of a sendable chain is adopting the chain. */
  lemma HearsChain(H: Hash, s: State, c: seq<Block>)
    requires s.chain != [] && ChainFits(c) && |EncodeChain(c)| < U64_LIMIT
    ensures Hears(H, s, Packet(c)) == Step(H, s, ChainMessage(c))
    ensures Hears(H, s, Packet(c)).chain == Adopt(H, s.chain, c)
  {
    hide EncodeMessage, EncodeChain, DecodeMessage, DecodeChain, ChainFits, ValidChain, Updated, Better;
    BroadcastRoundTrip(c);
  }

  lemma QuietKeepsChain(H: Hash, s: State, e: Event)
    requires s.chain != [] && !e.MinedBlock? && !e.ChainMessage?
    ensures Step(H, s, e).chain == s.chain
  {
    hide BlockHash, Enough;
  }

  /** One step of the network moves no node back, and lets only the chains of cs circulate. */
  lemma NetStepInv(H: Hash, cs: seq<seq<Block>>, net: Network, e: NetEvent)
    requires HaveChains(net) && Sendable(H, cs) && Circulates(cs, net) && Quiet(e)
    ensures var r := NetStep(H, net, e);
            && Circulates(cs, r) && net.wire <= r.wire
            && forall j | 0 <= j < |net.nodes| :: AsGood(r.nodes[j].chain, net.nodes[j].chain)
  {
    hide ValidChain, AsGood, Adopt, Hears, Packet, Step, ChainFits, EncodeChain;
    var r := NetStep(H, net, e);
    forall j | 0 <= j < |net.nodes|
      ensures r.nodes[j].chain in cs && AsGood(r.nodes[j].chain, net.nodes[j].chain)
    {
      AsGoodBothWays(net.nodes[j].chain, net.nodes[j].chain);
      if e.Deliver? && e.j == j && e.k < |net.wire| {
        var i :| 0 <= i < |cs| && net.wire[e.k] == Packet(cs[i]);
        HearsChain(H, net.nodes[j], cs[i]);
      } else if e.Local? && e.j == j {
        QuietKeepsChain(H, net.nodes[j], e.e);
      }
    }
    forall k | 0 <= k < |r.wire|
      ensures exists i :: 0 <= i < |cs| && r.wire[k] == Packet(cs[i])
    {
      if k < |net.wire| {
        assert r.wire[k] == net.wire[k];
      } else {
        var i :| 0 <= i < |cs| && cs[i] == net.nodes[e.i].chain;
        assert r.wire[k] == Packet(cs[i]);
      }
    }
  }

  lemma {:induction false} NetRunInv(H: Hash, cs: seq<seq<Block>>, net: Network, es: seq<NetEvent>)
    requires HaveChains(net) && Sendable(H, cs) && Circulates(cs, net) && AllQuiet(es)
    ensures var r := NetRun(H, net, es);
            && Circulates(cs, r) && net.wire <= r.wire
            && forall j | 0 <= j < |net.nodes| :: AsGood(r.nodes[j].chain, net.nodes[j].chain)
    ensures forall j | 0 <= j < |net.nodes| :: NotBehind(NetRun(H, net, es).nodes[j].chain, net.nodes[j].chain)
  {
    hide ValidChain, AsGood, NetStep, Circulates, Sendable, Quiet, NotBehind;
    if es == [] {
      forall j | 0 <= j < |net.nodes|
        ensures AsGood(net.nodes[j].chain, net.nodes[j].chain)
      {
        AsGoodBothWays(net.nodes[j].chain, net.nodes[j].chain);
      }
    } else {
      var n := |es| - 1;
      NetRunInv(H, cs, net, es[..n]);
      var q, r := NetRun(H, net, es[..n]), NetRun(H, net, es);
      assert Quiet(es[n]);
      NetStepInv(H, cs, q, es[n]);
      forall j | 0 <= j < |net.nodes|
        ensures AsGood(r.nodes[j].chain, net.nodes[j].chain)
      {
        AsGoodTransitive(r.nodes[j].chain, q.nodes[j].chain, net.nodes[j].chain);
      }
    }
    forall j | 0 <= j < |net.nodes|
      ensures NotBehind(NetRun(H, net, es).nodes[j].chain, net.nodes[j].chain)
    {
      NotBehindIs(NetRun(H, net, es).nodes[j].chain, net.nodes[j].chain);
    }
  }

  lemma {:induction false} NetRunSplits(H: Hash, net: Network, first: seq<NetEvent>, second: seq<NetEvent>)
    requires HaveChains(net)
    ensures NetRun(H, net, first + second) == NetRun(H, NetRun(H, net, first), second)
  {
    hide NetStep;
    if second == [] {
      assert first + second == first;
    } else {
      var front := second[..|second| - 1];
      assert (first + second)[..|first + second| - 1] == first + front;
      NetRunSplits(H, net, first, front);
    }
  }

  /** After es, with the a-th event node i's broadcast and the b-th its delivery to node j. */
  predicate Reaches(H: Hash, net: Network, es: seq<NetEvent>, i: nat, j: nat, a: nat, b: nat)
    requires HaveChains(net)
  {
    a < b < |es| && es[a] == Broadcast(i) && es[b] == Deliver(|NetRun(H, net, es[..a]).wire|, j)
  }

  ghost predicate Reached(H: Hash, net: Network, es: seq<NetEvent>, i: nat, j: nat)
    requires HaveChains(net)
  {
    exists a, b :: Reaches(H, net, es, i, j, a, b)
  }

  /** Every node's broadcast reaches every other node, in any order and with anything in between. */
  ghost predicate FullExchange(H: Hash, net: Network, es: seq<NetEvent>)
    requires HaveChains(net)
  {
    forall i, j | 0 <= i < |net.nodes| && 0 <= j < |net.nodes| && i != j :: Reached(H, net, es, i, j)
  }

  /** A chain that has reached a node leaves it at least as well off. */
  lemma ReachedIsAsGood(H: Hash, cs: seq<seq<Block>>, net: Network, es: seq<NetEvent>, i: nat, j: nat, a: nat, b: nat)
    requires HaveChains(net) && Sendable(H, cs) && Circulates(cs, net) && AllQuiet(es)
    requires i < |net.nodes| && j < |net.nodes| && Reaches(H, net, es, i, j, a, b)
    ensures AsGood(NetRun(H, net, es).nodes[j].chain, net.nodes[i].chain)
  {
    hide ValidChain, AsGood, Adopt, Hears, Packet, Sendable, Circulates, AllQuiet, NetRun, NetStep;
    var atA := NetRun(H, net, es[..a]);
    var sent := NetRun(H, net, es[..a + 1]);
    var atB := NetRun(H, net, es[..b]);
    var heard := NetRun(H, net, es[..b + 1]);
    Parts(H, cs, net, es, 0, a);
    Parts(H, cs, net, es, a, a + 1);
    Parts(H, cs, net, es, a + 1, b);
    Parts(H, cs, net, es, b, b + 1);
    Parts(H, cs, net, es, b + 1, |es|);
    assert es[..|es|] == es && es[..0] == [];
    RunOfNone(H, net);
    NodeCirculates(cs, atA, i);
    RunOfOne(H, net, es, a);
    RunOfOne(H, net, es, b);
    SentPacket(H, atA, i);
    var w := |atA.wire|;
    assert atB.wire[w] == Packet(atA.nodes[i].chain);
    HeardChain(H, cs, atB, w, j, atA.nodes[i].chain);
    var end := NetRun(H, net, es);
    AsGoodTransitive(end.nodes[j].chain, heard.nodes[j].chain, atA.nodes[i].chain);
    AsGoodTransitive(end.nodes[j].chain, atA.nodes[i].chain, net.nodes[i].chain);
  }

  lemma RunOfNone(H: Hash, net: Network)
    requires HaveChains(net)
    ensures NetRun(H, net, []) == net
  {
  }

  lemma NodeCirculates(cs: seq<seq<Block>>, net: Network, j: nat)
    requires Circulates(cs, net) && j < |net.nodes|
    ensures net.nodes[j].chain in cs
  {
    hide Packet;
  }

  lemma RunOfOne(H: Hash, net: Network, es: seq<NetEvent>, a: nat)
    requires HaveChains(net) && a < |es|
    ensures NetRun(H, net, es[..a + 1]) == NetStep(H, NetRun(H, net, es[..a]), es[a])
  {
    hide NetStep;
    assert es[..a + 1][..a] == es[..a];
  }

  lemma SentPacket(H: Hash, net: Network, i: nat)
    requires HaveChains(net) && i < |net.nodes|
    ensures NetStep(H, net, Broadcast(i)).wire == net.wire + [Packet(net.nodes[i].chain)]
  {
    hide Packet;
  }

  lemma HeardChain(H: Hash, cs: seq<seq<Block>>, net: Network, k: nat, j: nat, c: seq<Block>)
    requires HaveChains(net) && Sendable(H, cs) && c in cs
    requires j < |net.nodes| && k < |net.wire| && net.wire[k] == Packet(c)
    ensures AsGood(NetStep(H, net, Deliver(k, j)).nodes[j].chain, c)
  {
    hide AsGood, Hears, Packet, Adopt, ValidChain, ChainFits, EncodeChain;
    HearsChain(H, net.nodes[j], c);
  }

  /** Between two moments of the run nothing is taken from the wire and no node moves back. */
  lemma Parts(H: Hash, cs: seq<seq<Block>>, net: Network, es: seq<NetEvent>, from: nat, to: nat)
    requires HaveChains(net) && Sendable(H, cs) && Circulates(cs, net) && AllQuiet(es) && from <= to <= |es|
    ensures var p, q := NetRun(H, net, es[..from]), NetRun(H, net, es[..to]);
            && Circulates(cs, p) && Circulates(cs, q) && p.wire <= q.wire
            && forall j | 0 <= j < |net.nodes| :: AsGood(q.nodes[j].chain, p.nodes[j].chain)
  {
    hide ValidChain, AsGood, Sendable, Circulates, NetRun, Quiet;
    assert es[..to] == es[..from] + es[from..to];
    NetRunSplits(H, net, es[..from], es[from..to]);
    NetRunInv(H, cs, net, es[..from]);
    NetRunInv(H, cs, NetRun(H, net, es[..from]), es[from..to]);
  }

  function Chains(net: Network): seq<seq<Block>> {
    seq(|net.nodes|, j requires 0 <= j < |net.nodes| => net.nodes[j].chain)
  }

  /** Chain m beats every other: it is longer, or as long with an older tip. */
  predicate Beats(net: Network, m: nat)
    requires HaveChains(net) && m < |net.nodes|
  {
    var best := net.nodes[m].chain;
    forall i | 0 <= i < |net.nodes| ::
      var c := net.nodes[i].chain;
      c == best || |c| < |best| || (|c| == |best| && Tip(best).time < Tip(c).time)
  }

  /** What node j holds after the exchange, compared with what node i held before it. */
  lemma ExchangeReaches(H: Hash, net: Network, es: seq<NetEvent>, i: nat, j: nat)
    requires HaveChains(net) && Sendable(H, Chains(net)) && net.wire == [] && AllQuiet(es) && FullExchange(H, net, es)
    requires i < |net.nodes| && j < |net.nodes|
    ensures var c, d := NetRun(H, net, es).nodes[j].chain, net.nodes[i].chain;
            |d| <= |c| && (|d| == |c| ==> Tip(c).time <= Tip(d).time)
  {
    hide ValidChain, AsGood, NetRun, Sendable, Packet, Reaches, AllQuiet;
    var cs := Chains(net);
    assert Circulates(cs, net) by {
      assert forall j | 0 <= j < |net.nodes| :: net.nodes[j].chain == cs[j];
    }
    NetRunInv(H, cs, net, es);
    if i != j {
      assert Reached(H, net, es, i, j);
      var a, b :| Reaches(H, net, es, i, j, a, b);
      ReachedIsAsGood(H, cs, net, es, i, j, a, b);
    }
    AsGoodMeans(NetRun(H, net, es).nodes[j].chain, net.nodes[i].chain);
  }

  lemma ExchangeKeeps(H: Hash, net: Network, es: seq<NetEvent>, j: nat)
    requires HaveChains(net) && Sendable(H, Chains(net)) && net.wire == [] && AllQuiet(es)
    requires j < |net.nodes|
    ensures NetRun(H, net, es).nodes[j].chain in Chains(net)
  {
    hide ValidChain, AsGood, NetRun, Sendable, Packet, AllQuiet;
    var cs := Chains(net);
    assert Circulates(cs, net) by {
      assert forall j | 0 <= j < |net.nodes| :: net.nodes[j].chain == cs[j];
    }
    NetRunInv(H, cs, net, es);
  }

  /**
   After a full exchange all nodes hold one of the chains of the start, all of one length and one
   tip time; none of the chains of the start was longer, or as long with an older tip. When only
   one chain was the best, all nodes hold it.
   */
  lemma Converges(H: Hash, net: Network, es: seq<NetEvent>)
    requires HaveChains(net) && Sendable(H, Chains(net)) && net.wire == [] && AllQuiet(es) && FullExchange(H, net, es)
    ensures var r := NetRun(H, net, es);
            && (forall j | 0 <= j < |net.nodes| :: r.nodes[j].chain in Chains(net))
            && (forall i, j | 0 <= i < |net.nodes| && 0 <= j < |net.nodes| ::
                  var c, d := r.nodes[j].chain, net.nodes[i].chain;
                  |d| <= |c| && (|d| == |c| ==> Tip(c).time <= Tip(d).time))
            && (forall i, j | 0 <= i < |net.nodes| && 0 <= j < |net.nodes| ::
                  var c, d := r.nodes[j].chain, r.nodes[i].chain;
                  |d| == |c| && Tip(c).time == Tip(d).time)
    ensures forall m | 0 <= m < |net.nodes| && Beats(net, m) ::
              forall j | 0 <= j < |net.nodes| :: NetRun(H, net, es).nodes[j].chain == net.nodes[m].chain
  {
    hide ValidChain, NetRun, Sendable, AllQuiet, FullExchange, Chains;
    var r := NetRun(H, net, es);
    forall j | 0 <= j < |net.nodes|
      ensures r.nodes[j].chain in Chains(net)
    {
      ExchangeKeeps(H, net, es, j);
    }
    forall i, j | 0 <= i < |net.nodes| && 0 <= j < |net.nodes|
      ensures var c, d := r.nodes[j].chain, net.nodes[i].chain;
              |d| <= |c| && (|d| == |c| ==> Tip(c).time <= Tip(d).time)
    {
      ExchangeReaches(H, net, es, i, j);
    }
    forall i, j | 0 <= i < |net.nodes| && 0 <= j < |net.nodes|
      ensures var c, d := r.nodes[j].chain, r.nodes[i].chain;
              |d| == |c| && Tip(c).time == Tip(d).time
    {
      Holder(net, r, i);
      Holder(net, r, j);
    }
    forall m, j | 0 <= m < |net.nodes| && Beats(net, m) && 0 <= j < |net.nodes|
      ensures r.nodes[j].chain == net.nodes[m].chain
    {
      Holder(net, r, j);
      ExchangeReaches(H, net, es, m, j);
    }
  }

  lemma Holder(net: Network, r: Network, j: nat)
    requires j < |r.nodes| && r.nodes[j].chain in Chains(net)
    ensures exists i :: 0 <= i < |net.nodes| && net.nodes[i].chain == r.nodes[j].chain
  {
    var i :| 0 <= i < |net.nodes| && Chains(net)[i] == r.nodes[j].chain;
    assert net.nodes[i].chain == r.nodes[j].chain;
  }
}
