/**
 The queue of Projet/Tools/queue/shared_queue.c: two semaphores around the FIFO, as an
 interleaving of the threads' steps. Each thread pushes and pops as it likes.
 */
module SharedQueue {

  /**
   Where a thread stands. A push is sem_wait(lock), queue_push, sem_post(size),
   sem_post(lock); a pop is sem_wait(size), sem_wait(lock), queue_pop, sem_post(lock).
   */
  datatype Place<T> =
    | Outside
    | PushAtLock(value: T) | PushAtList(value: T) | PushAtPost | PushAtUnlock
    | PopAtSize | PopAtLock | PopAtList | PopAtUnlock(result: T)

  /** pushed and popped record the values in the order the list saw them. */
  datatype State<T> = State(lock: nat, size: nat, list: seq<T>, threads: seq<Place<T>>, pushed: seq<T>, popped: seq<T>)

  /** shared_queue_new, with n threads that have not called anything yet. */
  function Init<T>(n: nat): State<T> {
    State(1, 0, [], seq(n, _ => Outside), [], [])
  }

  datatype Act<T> = StartPush(value: T) | StartPop | Go

  /** Whether thread i can take the step: a semaphore at 0 holds it back, and queue_pop needs an element. */
  predicate Enabled<T>(s: State<T>, i: nat, a: Act<T>) {
    && i < |s.threads|
    && match s.threads[i]
       case Outside => !a.Go?
       case PushAtLock(_) => a.Go? && s.lock > 0
       case PopAtSize => a.Go? && s.size > 0
       case PopAtLock => a.Go? && s.lock > 0
       case PopAtList => a.Go? && s.list != []
       case _ => a.Go?
  }

  function Step<T>(s: State<T>, i: nat, a: Act<T>): State<T>
    requires Enabled(s, i, a)
  {
    match s.threads[i]
    case Outside =>
      s.(threads := s.threads[i := if a.StartPush? then PushAtLock(a.value) else PopAtSize])
    case PushAtLock(v) =>
      s.(lock := s.lock - 1, threads := s.threads[i := PushAtList(v)])
    case PushAtList(v) =>
      s.(list := s.list + [v], pushed := s.pushed + [v], threads := s.threads[i := PushAtPost])
    case PushAtPost =>
      s.(size := s.size + 1, threads := s.threads[i := PushAtUnlock])
    case PushAtUnlock =>
      s.(lock := s.lock + 1, threads := s.threads[i := Outside])
    case PopAtSize =>
      s.(size := s.size - 1, threads := s.threads[i := PopAtLock])
    case PopAtLock =>
      s.(lock := s.lock - 1, threads := s.threads[i := PopAtList])
    case PopAtList =>
      s.(list := s.list[1..], popped := s.popped + [s.list[0]], threads := s.threads[i := PopAtUnlock(s.list[0])])
    case PopAtUnlock(_) =>
      s.(lock := s.lock + 1, threads := s.threads[i := Outside])
  }

  datatype Move<T> = Move(thread: nat, act: Act<T>)

  /** An interleaving; a move that is held back leaves the state, and the thread, where it was. */
  function Run<T>(s: State<T>, moves: seq<Move<T>>): State<T> {
    if moves == [] then s else
      var r := Run(s, moves[..|moves| - 1]);
      var m := moves[|moves| - 1];
      if Enabled(r, m.thread, m.act) then Step(r, m.thread, m.act) else r
  }

  function Count<T>(threads: seq<Place<T>>, p: Place<T> -> bool): nat {
    if threads == [] then 0
    else Count(threads[..|threads| - 1], p) + if p(threads[|threads| - 1]) then 1 else 0
  }

  /** Between sem_wait(lock) and sem_post(lock). */
  function Inside<T>(): Place<T> -> bool {
    (p: Place<T>) => p.PushAtList? || p.PushAtPost? || p.PushAtUnlock? || p.PopAtList? || p.PopAtUnlock?
  }

  /** Past sem_wait(size), with the element not taken yet. */
  function Claiming<T>(): Place<T> -> bool {
    (p: Place<T>) => p.PopAtLock? || p.PopAtList?
  }

  /** The element is in the list and not posted yet. */
  function Unposted<T>(): Place<T> -> bool {
    (p: Place<T>) => p.PushAtPost?
  }

  ghost predicate Inv<T>(s: State<T>) {
    && s.lock + Count(s.threads, Inside()) == 1
    && |s.list| == s.size + Count(s.threads, Claiming()) + Count(s.threads, Unposted())
    && s.popped + s.list == s.pushed
  }

  lemma {:induction false} CountUpdate<T>(threads: seq<Place<T>>, i: nat, q: Place<T>, p: Place<T> -> bool)
    requires i < |threads|
    ensures Count(threads[i := q], p) + (if p(threads[i]) then 1 else 0) == Count(threads, p) + (if p(q) then 1 else 0)
  {
    var n := |threads| - 1;
    if i < n {
      CountUpdate(threads[..n], i, q, p);
      assert threads[i := q][..n] == threads[..n][i := q];
    } else {
      assert threads[i := q][..n] == threads[..n];
    }
  }

  lemma {:induction false} CountOne<T>(threads: seq<Place<T>>, i: nat, p: Place<T> -> bool)
    requires i < |threads| && p(threads[i])
    ensures Count(threads, p) >= 1
  {
    if i < |threads| - 1 {
      CountOne(threads[..|threads| - 1], i, p);
    }
  }

  lemma {:induction false} CountTwo<T>(threads: seq<Place<T>>, i: nat, j: nat, p: Place<T> -> bool)
    requires i < j < |threads| && p(threads[i]) && p(threads[j])
    ensures Count(threads, p) >= 2
  {
    var n := |threads| - 1;
    if j < n {
      CountTwo(threads[..n], i, j, p);
    } else {
      CountOne(threads[..n], i, p);
    }
  }

  lemma {:induction false} CountNone<T>(threads: seq<Place<T>>, p: Place<T> -> bool)
    requires forall i | 0 <= i < |threads| :: !p(threads[i])
    ensures Count(threads, p) == 0
  {
    if threads != [] {
      CountNone(threads[..|threads| - 1], p);
    }
  }

  lemma StepInv<T>(s: State<T>, i: nat, a: Act<T>)
    requires Inv(s) && Enabled(s, i, a)
    ensures Inv(Step(s, i, a))
  {
    hide Count;
    var q := Step(s, i, a).threads[i];
    CountUpdate(s.threads, i, q, Inside());
    CountUpdate(s.threads, i, q, Claiming());
    CountUpdate(s.threads, i, q, Unposted());
  }

  lemma {:induction false} RunInv<T>(n: nat, moves: seq<Move<T>>)
    ensures Inv(Run(Init<T>(n), moves))
  {
    if moves == [] {
      CountNone(Init<T>(n).threads, Inside());
      CountNone(Init<T>(n).threads, Claiming());
      CountNone(Init<T>(n).threads, Unposted());
    } else {
      var front, m := moves[..|moves| - 1], moves[|moves| - 1];
      RunInv<T>(n, front);
      var r := Run(Init<T>(n), front);
      if Enabled(r, m.thread, m.act) {
        StepInv(r, m.thread, m.act);
      }
    }
  }

  /** At most one thread is at the list. */
  lemma MutualExclusion<T>(n: nat, moves: seq<Move<T>>, i: nat, j: nat)
    requires var s := Run(Init<T>(n), moves);
             i < |s.threads| && j < |s.threads| && Inside()(s.threads[i]) && Inside()(s.threads[j])
    ensures i == j
  {
    var s := Run(Init<T>(n), moves);
    RunInv<T>(n, moves);
    if i < j {
      CountTwo(s.threads, i, j, Inside());
    } else if j < i {
      CountTwo(s.threads, j, i, Inside());
    }
  }

  /** queue_pop never meets an empty list, and the values come out in the order they went in. */
  lemma PopsAreSafe<T>(n: nat, moves: seq<Move<T>>)
    ensures var s := Run(Init<T>(n), moves);
            && s.popped <= s.pushed && s.pushed == s.popped + s.list
            && forall i | 0 <= i < |s.threads| && s.threads[i].PopAtList? :: s.list != []
  {
    var s := Run(Init<T>(n), moves);
    RunInv<T>(n, moves);
    forall i | 0 <= i < |s.threads| && s.threads[i].PopAtList?
      ensures s.list != []
    {
      CountOne(s.threads, i, Claiming());
    }
  }

  /**
   No thread in a call can go on only when every one of them is a consumer waiting for
   an element, and then nothing that was pushed is left.
   */
  lemma StuckOnlyWhenEmpty<T>(n: nat, moves: seq<Move<T>>, w: nat)
    requires var s := Run(Init<T>(n), moves);
             && w < |s.threads| && !s.threads[w].Outside?
             && forall i | 0 <= i < |s.threads| :: !Enabled(s, i, Go)
    ensures var s := Run(Init<T>(n), moves);
            && (forall i | 0 <= i < |s.threads| :: s.threads[i].Outside? || s.threads[i].PopAtSize?)
            && s.size == 0 && s.list == [] && s.popped == s.pushed
  {
    var s := Run(Init<T>(n), moves);
    RunInv<T>(n, moves);
    PopsAreSafe<T>(n, moves);
    forall i | 0 <= i < |s.threads|
      ensures !Inside()(s.threads[i])
    {
      assert !Enabled(s, i, Go);
    }
    CountNone(s.threads, Inside());
    forall i | 0 <= i < |s.threads|
      ensures s.threads[i].Outside? || s.threads[i].PopAtSize?
    {
      assert !Enabled(s, i, Go);
    }
    CountNone(s.threads, Claiming());
    CountNone(s.threads, Unposted());
    assert !Enabled(s, w, Go);
  }

  /** Thread c alone pops: the others are in no pop and start none. */
  predicate SoleConsumer<T>(s: State<T>, c: nat) {
    forall i | 0 <= i < |s.threads| && i != c ::
      !s.threads[i].PopAtSize? && !s.threads[i].PopAtLock? && !s.threads[i].PopAtList?
  }

  /** The consumer only enters shared_queue_pop, and the others never do. */
  predicate OneConsumerCalls<T>(moves: seq<Move<T>>, c: nat) {
    forall k | 0 <= k < |moves| :: moves[k].act.StartPop? || moves[k].thread == c ==> moves[k] == Move(c, StartPop)
  }

  /**
   A sole consumer that saw shared_queue_isEmpty answer false is not held back at
   sem_wait(size), whatever the other threads do before and after it calls shared_queue_pop.
   */
  lemma {:induction false} SoleConsumerNeverBlocks<T>(s: State<T>, c: nat, moves: seq<Move<T>>)
    requires c < |s.threads| && SoleConsumer(s, c) && s.size > 0 && OneConsumerCalls(moves, c)
    requires s.threads[c] == Outside
    ensures var r := Run(s, moves);
            && SoleConsumer(r, c) && |r.threads| == |s.threads| && r.size >= s.size
            && r.threads[c] == (if Move(c, StartPop) in moves then PopAtSize else Outside)
            && (Move(c, StartPop) in moves ==> Enabled(r, c, Go))
  {
    if moves != [] {
      var front, m := moves[..|moves| - 1], moves[|moves| - 1];
      assert moves == front + [m];
      SoleConsumerNeverBlocks(s, c, front);
    }
  }
}
