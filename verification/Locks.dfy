/**
 Deadlock freedom of the node's threads. Every lock is a mutex or the lock semaphore of
 a shared queue; each kind of thread is the graph of its lock operations.
 */
module Locks {

  datatype Lock =
    | Tl | Bc          // txs_temp_m.mutex and bc_m.mutex
    | Out | In         // the locks of OutgoingMessages and IncomingMessages
    | ApiQ | MinedQ    // the locks of the API and the mined-block queue
    | Known | Status   // lockKnownServers and lockStatus

  /** Network is the thread that starts the others of the network and adds the first servers. */
  datatype Role =
    | MainLoop | Miner | SendData | SaveWorker | ApiWorker
    | Network | Server | OutgoingSender | SendNetwork | Reader

  /**
   Program points, named by what the thread waits for and what it holds. WantX waits
   for X; HasX is past it. The letters after WithXY are the locks held besides.
   */
  datatype Place =
    | Free
    // shared_queue_push and shared_queue_pop on a queue, no other lock held
    | WantQueue(q: Lock) | HasQueue(q: Lock)
    // one mutex and nothing else
    | WantOne(m: Lock) | HasOne(m: Lock)
    // admission: tl, then bc, then the outgoing queue
    | TxWantTl | TxHasTl | TxWantBc | TxHasBc | TxWantOut | TxHasOut
    // adoption of a chain: bc, then tl
    | ChainWantBc | ChainHasBc | ChainWantTl | ChainHasTl
    // bc, then the outgoing queue: a mined block, or send_data's broadcast
    | BcWantBc | BcHasBc | BcWantOut | BcHasOut
    // send_data's transactions: tl, then the outgoing queue again and again
    | TlWantTl | TlHasTl | TlWantOut | TlHasOut

  /** The locks a thread holds at a place. */
  function Held(p: Place): set<Lock> {
    match p
    case Free | WantQueue(_) | WantOne(_) | TxWantTl | ChainWantBc | BcWantBc | TlWantTl => {}
    case HasQueue(q) => {q}
    case HasOne(m) => {m}
    case TxHasTl | TxWantBc | TlHasTl | TlWantOut => {Tl}
    case TxHasBc | TxWantOut => {Tl, Bc}
    case TxHasOut => {Tl, Bc, Out}
    case ChainHasBc | ChainWantTl | BcHasBc | BcWantOut => {Bc}
    case ChainHasTl => {Bc, Tl}
    case BcHasOut => {Bc, Out}
    case TlHasOut => {Tl, Out}
  }

  /** The lock a thread is waiting for at a place. */
  function Wanted(p: Place): set<Lock> {
    match p
    case WantQueue(q) => {q}
    case WantOne(m) => {m}
    case TxWantTl | ChainWantTl | TlWantTl => {Tl}
    case TxWantBc | ChainWantBc | BcWantBc => {Bc}
    case TxWantOut | BcWantOut | TlWantOut => {Out}
    case _ => {}
  }

  predicate IsLeaf(l: Lock) { l != Tl && l != Bc }

  /**
   The steps of each kind of thread. Where the code takes a lock once under a mutex, the
   graph lets it be taken again, so it has every run of the code and more.
   */
  predicate Next(role: Role, p: Place, q: Place) {
    match p
    case Free =>
      (match role
       case MainLoop => q in {WantQueue(In), WantQueue(ApiQ), WantQueue(MinedQ), TxWantTl, ChainWantBc, BcWantBc}
       case Miner => q in {WantOne(Bc), WantOne(Tl), WantQueue(MinedQ)}
       case SendData => q in {BcWantBc, TlWantTl}
       case SaveWorker => q == WantOne(Bc)
       case ApiWorker => q in {WantOne(Tl), WantOne(Bc), WantOne(Known), WantQueue(ApiQ)}
       case Network => q in {WantOne(Known), WantOne(Status)}
       case Server => q == WantOne(Status)
       case OutgoingSender => q in {WantQueue(Out), WantOne(Known)}
       case SendNetwork => q in {WantOne(Known), WantQueue(Out)}
       case Reader => q in {WantOne(Known), WantQueue(In)})
    case WantQueue(l) => q == HasQueue(l)
    case HasQueue(_) => q == Free
    case WantOne(m) => q == HasOne(m)
    case HasOne(_) => q == Free
    case TxWantTl => q == TxHasTl
    case TxHasTl => q in {TxWantBc, Free}
    case TxWantBc => q == TxHasBc
    case TxHasBc => q in {TxWantOut, TxHasTl}
    case TxWantOut => q == TxHasOut
    case TxHasOut => q == TxHasBc
    case ChainWantBc => q == ChainHasBc
    case ChainHasBc => q in {ChainWantTl, Free}
    case ChainWantTl => q == ChainHasTl
    case ChainHasTl => q == ChainHasBc
    case BcWantBc => q == BcHasBc
    case BcHasBc => q in {BcWantOut, Free}
    case BcWantOut => q == BcHasOut
    case BcHasOut => q == BcHasBc
    case TlWantTl => q == TlHasTl
    case TlHasTl => q in {TlWantOut, Free}
    case TlWantOut => q == TlHasOut
    case TlHasOut => q == TlHasTl
  }

  /** One main loop, as thread 0, and any number of other threads. */
  datatype State = State(roles: seq<Role>, places: seq<Place>)

  predicate WellFormed(s: State) {
    && |s.roles| == |s.places| && 0 < |s.roles|
    && forall i | 0 <= i < |s.roles| :: s.roles[i] == MainLoop <==> i == 0
  }

  /** Thread i moves to q, taking the locks it wanted only if nobody holds them. */
  predicate Step(s: State, i: nat, q: Place, r: State) {
    && WellFormed(s) && i < |s.places|
    && Next(s.roles[i], s.places[i], q)
    && (forall j | 0 <= j < |s.places| && j != i :: Held(q) - Held(s.places[i]) !! Held(s.places[j]))
    && r == s.(places := s.places[i := q])
  }

  predicate Start(s: State) {
    WellFormed(s) && forall i | 0 <= i < |s.places| :: s.places[i] == Free
  }

  ghost predicate Steps(s: State, r: State) {
    exists i, q :: Step(s, i, q, r)
  }

  function Final(states: seq<State>): State
    requires states != []
  {
    states[|states| - 1]
  }

  ghost predicate Run(states: seq<State>) {
    && states != [] && Start(states[0])
    && forall k | 0 <= k < |states| - 1 :: Steps(states[k], states[k + 1])
  }

  /** Places that only the main loop visits. */
  predicate MainOnly(p: Place) {
    p.TxWantTl? || p.TxHasTl? || p.TxWantBc? || p.TxHasBc? || p.TxWantOut? || p.TxHasOut?
    || p.ChainWantBc? || p.ChainHasBc? || p.ChainWantTl? || p.ChainHasTl?
  }

  ghost predicate Inv(s: State) {
    && WellFormed(s)
    && (forall i | 1 <= i < |s.places| :: !MainOnly(s.places[i]))
    && (forall i | 0 <= i < |s.places| :: s.places[i].WantQueue? || s.places[i].HasQueue? ==> IsLeaf(s.places[i].q))
    && (forall i, j | 0 <= i < j < |s.places| :: Held(s.places[i]) !! Held(s.places[j]))
  }

  lemma StepInv(s: State, i: nat, q: Place, r: State)
    requires Inv(s) && Step(s, i, q, r)
    ensures Inv(r)
  {
    NextKeepsRole(s.roles[i], s.places[i], q);
    forall m, n | 0 <= m < n < |r.places|
      ensures Held(r.places[m]) !! Held(r.places[n])
    {
      if m == i {
        DisjointGrows(Held(s.places[i]), Held(q), Held(s.places[n]));
      } else if n == i {
        DisjointGrows(Held(s.places[i]), Held(q), Held(s.places[m]));
      }
    }
  }

  lemma DisjointGrows(before: set<Lock>, after: set<Lock>, other: set<Lock>)
    requires before !! other && after - before !! other
    ensures after !! other
  {
    forall l | l in after
      ensures l !in other
    {
      if l !in before {
        assert l in after - before;
      }
    }
  }

  lemma NextKeepsRole(role: Role, p: Place, q: Place)
    requires Next(role, p, q) && (role != MainLoop ==> !MainOnly(p))
    requires p.WantQueue? || p.HasQueue? ==> IsLeaf(p.q)
    ensures role != MainLoop ==> !MainOnly(q)
    ensures q.WantQueue? || q.HasQueue? ==> IsLeaf(q.q)
  {
  }

  lemma {:induction false} RunInv(states: seq<State>)
    requires Run(states)
    ensures states != [] && Inv(Final(states))
  {
    var n := |states| - 1;
    if n > 0 {
      var front := states[..n];
      forall k | 0 <= k < |front| - 1
        ensures Steps(front[k], front[k + 1])
      {
        assert Steps(states[k], states[k + 1]);
      }
      RunInv(front);
      assert Steps(states[n - 1], states[n]);
      var i, q :| Step(states[n - 1], i, q, states[n]);
      StepInv(states[n - 1], i, q, states[n]);
    }
  }

  /** Nobody waits with a leaf lock in hand, and nobody waits for what he holds. */
  lemma LeavesAreReleased(p: Place)
    ensures Wanted(p) != {} ==> forall l | l in Held(p) :: !IsLeaf(l)
    ensures Held(p) !! Wanted(p)
  {
  }

  /** Holding tl or bc while waiting for tl or bc happens in the main loop only. */
  lemma NestingIsMain(p: Place, l: Lock)
    requires Held(p) != {} && l in Wanted(p) && !IsLeaf(l)
    requires p.WantQueue? ==> IsLeaf(p.q)
    ensures MainOnly(p)
  {
  }

  ghost predicate WaitsFor(s: State, i: nat, j: nat) {
    i < |s.places| && j < |s.places| && exists l :: l in Wanted(s.places[i]) && l in Held(s.places[j])
  }

  /** A nonempty set of threads each of which waits for a lock that another of them holds. */
  ghost predicate Deadlocked(s: State, threads: set<nat>) {
    threads != {} && forall i | i in threads :: HeldUpWithin(s, threads, i)
  }

  ghost predicate HeldUpWithin(s: State, threads: set<nat>, i: nat) {
    exists j :: j in threads && WaitsFor(s, i, j)
  }

  lemma HeldUp(s: State, threads: set<nat>, i: nat) returns (j: nat, l: Lock)
    requires Deadlocked(s, threads) && i in threads
    ensures i < |s.places| && j in threads && j < |s.places|
    ensures l in Wanted(s.places[i]) && l in Held(s.places[j])
  {
    hide Held, Wanted;
    j :| j in threads && WaitsFor(s, i, j);
    l :| l in Wanted(s.places[i]) && l in Held(s.places[j]);
  }

  /** In a deadlock everyone would be waiting for the main loop. */
  lemma HolderIsMain(s: State, threads: set<nat>, j: nat)
    requires Inv(s) && Deadlocked(s, threads) && j in threads && j < |s.places| && Held(s.places[j]) != {}
    ensures j == 0
  {
    hide *;
    InvParts(s);
    var k, m := HeldUp(s, threads, j);
    var n, o := HeldUp(s, threads, k);
    LeavesAreReleased(s.places[k]);
    NestingIsMain(s.places[j], m);
  }

  /**
   No run reaches a deadlock, although the main loop takes tl before bc in one place and
   bc before tl in another: it alone ever holds one of them while it waits for the other.
   */
  lemma NoDeadlock(states: seq<State>, threads: set<nat>)
    requires Run(states)
    ensures !Deadlocked(Final(states), threads)
  {
    hide Held, Wanted, MainOnly, IsLeaf, Inv, Run, HeldUpWithin;
    RunInv(states);
    var s := Final(states);
    if Deadlocked(s, threads) {
      var i :| i in threads;
      var j, l := HeldUp(s, threads, i);
      HolderIsMain(s, threads, j);
      var k, m := HeldUp(s, threads, 0);
      HolderIsMain(s, threads, k);
      LeavesAreReleased(s.places[0]);
      assert false;
    }
  }

  /** A way on from every place but Free: take the lock waited for, or give one back. */
  function Onward(p: Place): Place
    requires p != Free
  {
    match p
    case WantQueue(q) => HasQueue(q)
    case WantOne(m) => HasOne(m)
    case TxWantTl => TxHasTl
    case TxWantBc | TxHasOut => TxHasBc
    case TxHasBc => TxHasTl
    case TxWantOut => TxHasOut
    case ChainWantBc | ChainHasTl => ChainHasBc
    case ChainWantTl => ChainHasTl
    case BcWantBc | BcHasOut => BcHasBc
    case BcWantOut => BcHasOut
    case TlWantTl | TlHasOut => TlHasTl
    case TlWantOut => TlHasOut
    case _ => Free
  }

  lemma OnwardIsNext(role: Role, p: Place)
    requires p != Free
    ensures Next(role, p, Onward(p)) && Held(Onward(p)) - Held(p) <= Wanted(p)
  {
  }

  lemma OneIsWanted(p: Place)
    ensures |Wanted(p)| <= 1 && forall l, m | l in Wanted(p) && m in Wanted(p) :: l == m
  {
  }

  ghost predicate CanStep(s: State, i: nat) {
    i < |s.places| && s.places[i] != Free && exists q, r :: Step(s, i, q, r)
  }

  lemma Unopposed(s: State, i: nat)
    requires WellFormed(s) && i < |s.places| && s.places[i] != Free
    requires forall j | 0 <= j < |s.places| && j != i :: Wanted(s.places[i]) !! Held(s.places[j])
    ensures CanStep(s, i)
  {
    hide Held, Wanted, Next, Onward;
    var q := Onward(s.places[i]);
    OnwardIsNext(s.roles[i], s.places[i]);
    forall j | 0 <= j < |s.places| && j != i
      ensures Held(q) - Held(s.places[i]) !! Held(s.places[j])
    {
    }
    assert Step(s, i, q, s.(places := s.places[i := q]));
  }

  /** As long as some thread is in the middle of something, some such thread can go on. */
  lemma SomeoneCanStep(states: seq<State>, t: nat)
    requires Run(states)
    requires var s := Final(states); t < |s.places| && s.places[t] != Free
    ensures exists i :: CanStep(Final(states), i)
  {
    hide *;
    RunInv(states);
    var s := Final(states);
    InvParts(s);
    if w: nat :| w < |s.places| && s.places[w] != Free && Wanted(s.places[w]) == {} {
      Unopposed(s, w);
    } else if w: nat, l: Lock :| w < |s.places| && l in Wanted(s.places[w]) && IsLeaf(l) {
      forall j | 0 <= j < |s.places| && j != w
        ensures Wanted(s.places[w]) !! Held(s.places[j])
      {
        FreeHoldsNothing(s.places[j]);
        LeavesAreReleased(s.places[j]);
        OneIsWanted(s.places[w]);
      }
      FreeHoldsNothing(s.places[w]);
      Unopposed(s, w);
    } else {
      var w := if s.places[0] != Free then 0 else t;
      forall j | 0 <= j < |s.places| && j != w
        ensures Held(s.places[j]) == {}
      {
        OnlyMainHolds(s, j);
      }
      Unopposed(s, w);
    }
  }

  lemma FreeHoldsNothing(p: Place)
    ensures p == Free ==> Held(p) == {} && Wanted(p) == {}
  {
  }

  lemma InvParts(s: State)
    requires Inv(s)
    ensures |s.roles| == |s.places| && 0 < |s.roles| && WellFormed(s)
    ensures forall i | 1 <= i < |s.places| :: !MainOnly(s.places[i])
    ensures forall i | 0 <= i < |s.places| :: s.places[i].WantQueue? ==> IsLeaf(s.places[i].q)
  {
  }

  /** When everyone who is not free waits for tl or bc, only the main loop can hold a lock. */
  lemma OnlyMainHolds(s: State, j: nat)
    requires Inv(s) && j < |s.places| && (j != 0 || s.places[j] == Free)
    requires s.places[j] != Free ==> Wanted(s.places[j]) != {} && forall l | l in Wanted(s.places[j]) :: !IsLeaf(l)
    ensures Held(s.places[j]) == {}
  {
    hide Held, Wanted, MainOnly, IsLeaf;
    FreeHoldsNothing(s.places[j]);
    if Held(s.places[j]) != {} {
      var l :| l in Wanted(s.places[j]);
      NestingIsMain(s.places[j], l);
      assert false;
    }
  }

  // --- the lock operations of the code, as walks of the graph

  datatype LockOp = Take(l: Lock) | Give(l: Lock)

  /** The operations lead from one place to another: a lock is waited for and then held, or given back. */
  ghost predicate Walk(role: Role, p: Place, ops: seq<LockOp>, q: Place)
    decreases |ops|
  {
    if ops == [] then p == q
    else
      match ops[0]
      case Take(l) => exists w, h :: Takes(role, p, l, w, h) && Walk(role, h, ops[1..], q)
      case Give(l) => exists h :: Gives(role, p, l, h) && Walk(role, h, ops[1..], q)
  }

  predicate Takes(role: Role, p: Place, l: Lock, w: Place, h: Place) {
    && Next(role, p, w) && Wanted(w) == {l} && Held(w) == Held(p)
    && Next(role, w, h) && l !in Held(p) && Held(h) == Held(p) + {l}
  }

  predicate Gives(role: Role, p: Place, l: Lock, h: Place) {
    Next(role, p, h) && l in Held(p) && Held(h) == Held(p) - {l} && Wanted(h) == {}
  }

  lemma TakeFirst(role: Role, p: Place, l: Lock, w: Place, h: Place, ops: seq<LockOp>, q: Place)
    requires Takes(role, p, l, w, h) && Walk(role, h, ops, q)
    ensures Walk(role, p, [Take(l)] + ops, q)
  {
    hide Takes;
    assert ([Take(l)] + ops)[1..] == ops;
  }

  lemma GiveFirst(role: Role, p: Place, l: Lock, h: Place, ops: seq<LockOp>, q: Place)
    requires Gives(role, p, l, h) && Walk(role, h, ops, q)
    ensures Walk(role, p, [Give(l)] + ops, q)
  {
    hide Gives;
    assert ([Give(l)] + ops)[1..] == ops;
  }

  lemma NoOps(role: Role, p: Place)
    ensures Walk(role, p, [], p)
  {
  }

  /** shared_queue_push or shared_queue_pop by itself. */
  lemma QueueWalk(role: Role, q: Lock)
    requires Next(role, Free, WantQueue(q))
    ensures Walk(role, Free, [Take(q), Give(q)], Free)
  {
    hide Walk;
    NoOps(role, Free);
    GiveFirst(role, HasQueue(q), q, Free, [], Free);
    TakeFirst(role, Free, q, WantQueue(q), HasQueue(q), [Give(q)] + [], Free);
    assert [Take(q)] + ([Give(q)] + []) == [Take(q), Give(q)];
  }

  /** One mutex by itself. */
  lemma MutexWalk(role: Role, m: Lock)
    requires Next(role, Free, WantOne(m))
    ensures Walk(role, Free, [Take(m), Give(m)], Free)
  {
    hide Walk;
    NoOps(role, Free);
    GiveFirst(role, HasOne(m), m, Free, [], Free);
    TakeFirst(role, Free, m, WantOne(m), HasOne(m), [Give(m)] + [], Free);
    assert [Take(m)] + ([Give(m)] + []) == [Take(m), Give(m)];
  }

  /** An admission: the list, the chain, and for an accepted transaction the outgoing queue. */
  lemma AdmissionWalks()
    ensures Walk(MainLoop, Free, [Take(Tl), Give(Tl)], Free)
    ensures Walk(MainLoop, Free, [Take(Tl), Take(Bc), Give(Bc), Give(Tl)], Free)
    ensures Walk(MainLoop, Free, [Take(Tl), Take(Bc), Take(Out), Give(Out), Give(Bc), Give(Tl)], Free)
  {
    hide Walk;
    var r, one := MainLoop, [Give(Tl)] + [];
    var two := [Give(Bc)] + one;
    var three := [Take(Out)] + ([Give(Out)] + two);
    NoOps(r, Free);
    GiveFirst(r, TxHasTl, Tl, Free, [], Free);
    TakeFirst(r, Free, Tl, TxWantTl, TxHasTl, one, Free);
    GiveFirst(r, TxHasBc, Bc, TxHasTl, one, Free);
    TakeFirst(r, TxHasTl, Bc, TxWantBc, TxHasBc, two, Free);
    TakeFirst(r, Free, Tl, TxWantTl, TxHasTl, [Take(Bc)] + two, Free);
    GiveFirst(r, TxHasOut, Out, TxHasBc, two, Free);
    TakeFirst(r, TxHasBc, Out, TxWantOut, TxHasOut, [Give(Out)] + two, Free);
    TakeFirst(r, TxHasTl, Bc, TxWantBc, TxHasBc, three, Free);
    TakeFirst(r, Free, Tl, TxWantTl, TxHasTl, [Take(Bc)] + three, Free);
    assert [Take(Tl)] + one == [Take(Tl), Give(Tl)];
    assert [Take(Tl)] + ([Take(Bc)] + two) == [Take(Tl), Take(Bc), Give(Bc), Give(Tl)];
    assert [Take(Tl)] + ([Take(Bc)] + three) == [Take(Tl), Take(Bc), Take(Out), Give(Out), Give(Bc), Give(Tl)];
  }

  /** A received chain: the chain, and for an adopted one the list, in the other order. */
  lemma AdoptionWalks()
    ensures Walk(MainLoop, Free, [Take(Bc), Give(Bc)], Free)
    ensures Walk(MainLoop, Free, [Take(Bc), Take(Tl), Give(Tl), Give(Bc)], Free)
  {
    hide Walk;
    var r, one := MainLoop, [Give(Bc)] + [];
    NoOps(r, Free);
    GiveFirst(r, ChainHasBc, Bc, Free, [], Free);
    TakeFirst(r, Free, Bc, ChainWantBc, ChainHasBc, one, Free);
    GiveFirst(r, ChainHasTl, Tl, ChainHasBc, one, Free);
    TakeFirst(r, ChainHasBc, Tl, ChainWantTl, ChainHasTl, [Give(Tl)] + one, Free);
    TakeFirst(r, Free, Bc, ChainWantBc, ChainHasBc, [Take(Tl)] + ([Give(Tl)] + one), Free);
    assert [Take(Bc)] + one == [Take(Bc), Give(Bc)];
    assert [Take(Bc)] + ([Take(Tl)] + ([Give(Tl)] + one)) == [Take(Bc), Take(Tl), Give(Tl), Give(Bc)];
  }

  /** A mined block, and send_data's broadcast of the chain. */
  lemma BroadcastWalk(role: Role)
    requires role == MainLoop || role == SendData
    ensures Walk(role, Free, [Take(Bc), Take(Out), Give(Out), Give(Bc)], Free)
  {
    hide Walk;
    var one := [Give(Bc)] + [];
    NoOps(role, Free);
    GiveFirst(role, BcHasBc, Bc, Free, [], Free);
    GiveFirst(role, BcHasOut, Out, BcHasBc, one, Free);
    TakeFirst(role, BcHasBc, Out, BcWantOut, BcHasOut, [Give(Out)] + one, Free);
    TakeFirst(role, Free, Bc, BcWantBc, BcHasBc, [Take(Out)] + ([Give(Out)] + one), Free);
    assert [Take(Bc)] + ([Take(Out)] + ([Give(Out)] + one)) == [Take(Bc), Take(Out), Give(Out), Give(Bc)];
  }

  /** send_data pushes each of n transactions under the list's mutex. */
  function Pushes(n: nat): seq<LockOp> {
    if n == 0 then [Give(Tl)] else [Take(Out)] + ([Give(Out)] + Pushes(n - 1))
  }

  lemma {:induction false} PushesWalk(n: nat)
    ensures Walk(SendData, TlHasTl, Pushes(n), Free)
  {
    hide Walk;
    if n == 0 {
      NoOps(SendData, Free);
      GiveFirst(SendData, TlHasTl, Tl, Free, [], Free);
      assert [Give(Tl)] + [] == [Give(Tl)];
    } else {
      PushesWalk(n - 1);
      GiveFirst(SendData, TlHasOut, Out, TlHasTl, Pushes(n - 1), Free);
      TakeFirst(SendData, TlHasTl, Out, TlWantOut, TlHasOut, [Give(Out)] + Pushes(n - 1), Free);
    }
  }

  lemma SendDataWalks(n: nat)
    ensures Walk(SendData, Free, [Take(Tl)] + Pushes(n), Free)
  {
    hide Walk, Pushes;
    PushesWalk(n);
    TakeFirst(SendData, Free, Tl, TlWantTl, TlHasTl, Pushes(n), Free);
  }

  /** The queues and mutexes that each kind of thread takes by themselves. */
  function Alone(role: Role): set<Lock> {
    match role
    case MainLoop => {In, ApiQ, MinedQ}
    case Miner => {Bc, Tl, MinedQ}
    case SendData => {}
    case SaveWorker => {Bc}
    case ApiWorker => {Tl, Bc, Known, ApiQ}
    case Network => {Known, Status}
    case Server => {Status}
    case OutgoingSender => {Out, Known}
    case SendNetwork => {Known, Out}
    case Reader => {Known, In}
  }

  lemma AloneWalks(role: Role, l: Lock)
    requires l in Alone(role)
    ensures Walk(role, Free, [Take(l), Give(l)], Free)
  {
    hide Walk, Held, Wanted;
    if Next(role, Free, WantOne(l)) {
      MutexWalk(role, l);
    } else {
      QueueWalk(role, l);
    }
  }
}
