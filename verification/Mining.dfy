/**
 The parallel proof of work of Projet/Noeud_de_minage/minage.c: thread n of nbthread
 tries the nonces n, n + nbthread, n + 2 * nbthread, ... in 64-bit arithmetic, and one
 flag stops all of them. Any interleaving of the threads' steps is a schedule.
 */
module Mining {
  import opened Arithmetic
  import opened Bytes
  import opened Blocks
  import opened Difficulty

  /** Which nonces pass testproof for one string and one difficulty. */
  type Test = U64 -> bool

  predicate Passes(H: Hash, diff: nat, sum: CString, proof: U64)
    requires diff <= 64
  {
    EndsInZeros(diff, H(MinerText(proof, sum)))
  }

  // testproof
  method TestProof(H: Hash, diff: nat, sum: CString, proof: U64) returns (res: nat)
    requires diff <= 64
    ensures res == 0 || res == 1
    ensures res == 0 <==> Passes(H, diff, sum, proof)
  {
    var buf := H(MinerText(proof, sum));
    res := DifficultyTest(diff, buf);
  }

  /**
   Where a thread is in the loop of thread_mining: about to read the loop condition,
   about to hash, about to set the flag after a success, or gone.
   */
  datatype Place = AtCondition | AtHash | AtFlag | Gone

  /** failed counts the nonces the thread has hashed in vain. */
  datatype Thread = Thread(proof: U64, place: Place, failed: nat)

  datatype State = State(threads: seq<Thread>, ismining: bool)

  function Init(nb: nat): State {
    State(seq(nb, n requires 0 <= n < nb => Thread(n % U64_LIMIT, AtCondition, 0)), false)
  }

  /** One step of thread n; a thread that is gone stays as it is. */
  function Step(pass: Test, s: State, n: nat): State
    requires n < |s.threads|
  {
    var t := s.threads[n];
    match t.place
    case AtCondition =>
      s.(threads := s.threads[n := t.(place := if s.ismining then Gone else AtHash)])
    case AtHash =>
      if pass(t.proof) then s.(threads := s.threads[n := t.(place := AtFlag)])
      else
        var next := (t.proof + |s.threads|) % U64_LIMIT;
        s.(threads := s.threads[n := Thread(next, AtCondition, t.failed + 1)])
    case AtFlag =>
      State(s.threads[n := t.(place := Gone)], true)
    case Gone => s
  }

  predicate ScheduleOf(nb: nat, schedule: seq<nat>) {
    forall i | 0 <= i < |schedule| :: schedule[i] < nb
  }

  /** The state after the threads named by the schedule have taken one step each, in order. */
  function Run(pass: Test, s: State, schedule: seq<nat>): (r: State)
    requires ScheduleOf(|s.threads|, schedule)
    ensures |r.threads| == |s.threads|
  {
    if schedule == [] then s
    else Step(pass, Run(pass, s, schedule[..|schedule| - 1]), schedule[|schedule| - 1])
  }

  predicate AllGone(s: State) {
    forall t | t in s.threads :: t.place == Gone
  }

  /** The nonce thread n tries after k failures. */
  function Nonce(nb: nat, n: nat, k: nat): U64 { (n + k * nb) % U64_LIMIT }

  predicate FailedSoFar(pass: Test, nb: nat, n: nat, k: nat) {
    forall j | 0 <= j < k :: !pass(Nonce(nb, n, j))
  }

  ghost predicate ThreadInv(pass: Test, s: State, n: nat)
    requires n < |s.threads|
  {
    var t := s.threads[n];
    && t.proof == Nonce(|s.threads|, n, t.failed)
    && FailedSoFar(pass, |s.threads|, n, t.failed)
    && (t.place == AtFlag ==> pass(t.proof))
    && (t.place == Gone ==> s.ismining)
  }

  ghost predicate Winner(pass: Test, s: State, n: nat) {
    n < |s.threads| && s.threads[n].place == Gone && pass(s.threads[n].proof)
  }

  ghost predicate Inv(pass: Test, s: State) {
    && (forall n | 0 <= n < |s.threads| :: ThreadInv(pass, s, n))
    && (s.ismining ==> exists n :: Winner(pass, s, n))
  }

  lemma NextNonce(nb: nat, n: nat, k: nat)
    ensures (Nonce(nb, n, k) + nb) % U64_LIMIT == Nonce(nb, n, k + 1)
  {
    OneMore(k, nb);
    ReduceEarly(n + k * nb, nb, U64_LIMIT);
  }

  lemma InitInv(pass: Test, nb: nat)
    ensures Inv(pass, Init(nb))
  {
    forall n | 0 <= n < nb
      ensures ThreadInv(pass, Init(nb), n)
    {
      assert 0 * nb == 0;
    }
  }

  lemma StepInv(pass: Test, s: State, n: nat)
    requires n < |s.threads| && Inv(pass, s)
    ensures Inv(pass, Step(pass, s, n))
  {
    var r := Step(pass, s, n);
    var t := s.threads[n];
    assert ThreadInv(pass, s, n);
    NextNonce(|s.threads|, n, t.failed);
    forall m | 0 <= m < |r.threads|
      ensures ThreadInv(pass, r, m)
    {
      assert ThreadInv(pass, s, m);
    }
    if s.ismining {
      var w :| Winner(pass, s, w);
      assert Winner(pass, r, w);
    } else if r.ismining {
      assert Winner(pass, r, n);
    }
  }

  lemma {:induction false} RunInv(pass: Test, nb: nat, schedule: seq<nat>)
    requires ScheduleOf(nb, schedule)
    ensures Inv(pass, Run(pass, Init(nb), schedule))
  {
    if schedule == [] {
      InitInv(pass, nb);
    } else {
      var front := schedule[..|schedule| - 1];
      RunInv(pass, nb, front);
      StepInv(pass, Run(pass, Init(nb), front), schedule[|schedule| - 1]);
    }
  }

  function Outputs(s: State): seq<U64> {
    seq(|s.threads|, n requires 0 <= n < |s.threads| => s.threads[n].proof)
  }

  /** What the joining loop of mine_from_string keeps: the last output that passes, or 0. */
  function LastPassing(pass: Test, outputs: seq<U64>): U64 {
    if outputs == [] then 0
    else if pass(outputs[|outputs| - 1]) then outputs[|outputs| - 1]
    else LastPassing(pass, outputs[..|outputs| - 1])
  }

  /** It is the last output that passes: nothing behind it does. */
  lemma {:induction false} LastPassingIs(pass: Test, outputs: seq<U64>)
    ensures if exists n :: 0 <= n < |outputs| && pass(outputs[n]) then
              exists n :: 0 <= n < |outputs| && outputs[n] == LastPassing(pass, outputs) && pass(outputs[n])
                          && forall m | n < m < |outputs| :: !pass(outputs[m])
            else LastPassing(pass, outputs) == 0
  {
    if outputs != [] {
      var last := |outputs| - 1;
      if pass(outputs[last]) {
        assert outputs[last] == LastPassing(pass, outputs);
      } else {
        var front := outputs[..last];
        LastPassingIs(pass, front);
        if n :| 0 <= n < last && front[n] == LastPassing(pass, front) && pass(front[n])
                && forall m | n < m < last :: !pass(front[m]) {
          assert outputs[n] == LastPassing(pass, outputs);
          forall m | n < m < |outputs|
            ensures !pass(outputs[m])
          {
            assert m < last ==> outputs[m] == front[m];
          }
        } else {
          forall n | 0 <= n < |outputs|
            ensures !pass(outputs[n])
          {
            assert n < last ==> outputs[n] == front[n];
          }
        }
      }
    }
  }

  // the joining loop of mine_from_string
  method JoinThreads(H: Hash, diff: nat, sum: CString, outputs: seq<U64>) returns (proof: U64)
    requires diff <= 64
    ensures proof == LastPassing((p: U64) => Passes(H, diff, sum, p), outputs)
    ensures if exists n :: 0 <= n < |outputs| && Passes(H, diff, sum, outputs[n]) then
              exists n :: 0 <= n < |outputs| && outputs[n] == proof && Passes(H, diff, sum, proof)
                          && forall m | n < m < |outputs| :: !Passes(H, diff, sum, outputs[m])
            else proof == 0
  {
    ghost var pass: Test := (p: U64) => Passes(H, diff, sum, p);
    proof := 0;
    for n := 0 to |outputs|
      invariant proof == LastPassing(pass, outputs[..n])
    {
      var res := TestProof(H, diff, sum, outputs[n]);
      assert outputs[..n + 1][..n] == outputs[..n];
      if res == 0 {
        proof := outputs[n];
      }
    }
    assert outputs[..|outputs|] == outputs;
    LastPassingIs(pass, outputs);
  }

  lemma {:induction false} LastPassingPasses(pass: Test, outputs: seq<U64>, n: nat)
    requires n < |outputs| && pass(outputs[n])
    ensures exists m :: 0 <= m < |outputs| && outputs[m] == LastPassing(pass, outputs) && pass(outputs[m])
  {
    var last := |outputs| - 1;
    if !pass(outputs[last]) {
      LastPassingPasses(pass, outputs[..last], n);
      var m :| 0 <= m < last && outputs[..last][m] == LastPassing(pass, outputs[..last]) && pass(outputs[..last][m]);
      assert outputs[m] == LastPassing(pass, outputs);
    }
  }

  /** A value mine_from_string can return: some interleaving lets every thread end, and they are joined. */
  ghost predicate MiningResult(pass: Test, nb: nat, proof: U64) {
    exists schedule ::
      && ScheduleOf(nb, schedule)
      && AllGone(Run(pass, Init(nb), schedule))
      && proof == LastPassing(pass, Outputs(Run(pass, Init(nb), schedule)))
  }

  /** Nothing below r in r's residue class passes. */
  ghost predicate LeastInClass(pass: Test, nb: nat, r: U64)
    requires nb > 0
  {
    forall q: U64 | q < r && q % nb == r % nb :: !pass(q)
  }

  /**
   In every interleaving, once all threads are joined, the value returned passes and is the
   least passing nonce of its residue class, however often the 64-bit nonces have wrapped.
   */
  lemma MiningIsSafe(pass: Test, nb: nat, proof: U64)
    requires 0 < nb && MiningResult(pass, nb, proof)
    ensures pass(proof) && LeastInClass(pass, nb, proof)
  {
    var schedule :| ScheduleOf(nb, schedule) && AllGone(Run(pass, Init(nb), schedule))
                 && proof == LastPassing(pass, Outputs(Run(pass, Init(nb), schedule)));
    var s := Run(pass, Init(nb), schedule);
    RunInv(pass, nb, schedule);
    assert s.threads[0] in s.threads && ThreadInv(pass, s, 0);
    var w :| Winner(pass, s, w);
    LastPassingPasses(pass, Outputs(s), w);
    var m :| 0 <= m < nb && Outputs(s)[m] == proof && pass(Outputs(s)[m]);
    assert ThreadInv(pass, s, m);
    LeastOfClass(pass, nb, m, s.threads[m].failed);
  }

  lemma LeastOfClass(pass: Test, nb: nat, n: nat, k: nat)
    requires n < nb && FailedSoFar(pass, nb, n, k)
    ensures LeastInClass(pass, nb, Nonce(nb, n, k))
  {
    hide FailedSoFar;
    forall q: U64 | q < Nonce(nb, n, k) && q % nb == Nonce(nb, n, k) % nb
      ensures !pass(q)
    {
      EarlierFailed(pass, nb, n, k, q);
    }
  }

  /** A lesser nonce of the class is one the thread tried as many strides ago as the two are apart. */
  lemma EarlierFailed(pass: Test, nb: nat, n: nat, k: nat, q: U64)
    requires n < nb && FailedSoFar(pass, nb, n, k)
    requires q < Nonce(nb, n, k) && q % nb == Nonce(nb, n, k) % nb
    ensures !pass(q)
  {
    hide Nonce;
    var d := StridesApart(nb, n, k, q);
    assert FailedSoFar(pass, nb, n, k) && !pass(Nonce(nb, n, k - d));
  }

  lemma StridesApart(nb: nat, n: nat, k: nat, q: U64) returns (d: nat)
    requires n < nb && q < Nonce(nb, n, k) && q % nb == Nonce(nb, n, k) % nb
    ensures 0 < d <= k && Nonce(nb, n, k - d) == q
  {
    hide Nonce;
    var r := Nonce(nb, n, k);
    d := SameClass(nb, q, r);
    var wraps := Wraps(nb, n, k);
    BackBy(nb, n, k, d, q + wraps * U64_LIMIT);
    NonceIs(nb, n, k - d, q, wraps);
  }

  lemma SameClass(nb: nat, q: nat, r: nat) returns (d: nat)
    requires 0 < nb && q < r && q % nb == r % nb
    ensures 0 < d && r == q + d * nb
  {
    Divide(r, nb);
    Divide(q, nb);
    NonzeroMultiple(r / nb - q / nb, nb);
    assert (r / nb - q / nb) * nb == (r / nb) * nb - (q / nb) * nb;
    d := r / nb - q / nb;
  }

  lemma Wraps(nb: nat, n: nat, k: nat) returns (wraps: nat)
    ensures n + k * nb == Nonce(nb, n, k) + wraps * U64_LIMIT
  {
    wraps := (n + k * nb) / U64_LIMIT;
  }

  lemma BackBy(nb: nat, n: nat, k: nat, d: nat, total: nat)
    requires n < nb && n + k * nb == total + d * nb
    ensures d <= k && n + (k - d) * nb == total
  {
    assert (k - d) * nb == k * nb - d * nb;
    NonzeroMultiple(k - d, nb);
  }

  lemma NonceIs(nb: nat, n: nat, k: nat, q: U64, wraps: nat)
    requires n + k * nb == q + wraps * U64_LIMIT
    ensures Nonce(nb, n, k) == q
  {
    AddMultiple(q, wraps, U64_LIMIT);
  }

  lemma NonceOfClass(nb: nat, q: U64)
    requires 0 < nb
    ensures q == q % nb + (q / nb) * nb && q == Nonce(nb, q % nb, q / nb)
  {
    Divide(q, nb);
  }

  lemma Divide(q: nat, nb: nat)
    requires 0 < nb
    ensures q == q % nb + (q / nb) * nb
  {
  }

  lemma Monotone(j: nat, k: nat, nb: nat, n: nat)
    requires n + j * nb < n + k * nb
    ensures j < k
  {
    assert 0 < (k - j) * nb;
    NonzeroMultiple(k - j, nb);
  }

  /** With one thread, as createGenesis mines, the value returned is the least nonce that passes. */
  lemma OneThreadFindsLeast(pass: Test, proof: U64)
    requires MiningResult(pass, 1, proof)
    ensures pass(proof) && forall q: U64 | q < proof :: !pass(q)
  {
    MiningIsSafe(pass, 1, proof);
    forall q: U64 | q < proof
      ensures !pass(q)
    {
      assert q % 1 == proof % 1;
    }
  }

  /** Before the nonce wraps no two threads try the same nonce, and no thread tries one twice. */
  lemma NoncesDisjoint(nb: nat, m: nat, j: nat, n: nat, k: nat)
    requires m < nb && n < nb
    requires m + j * nb < U64_LIMIT && n + k * nb < U64_LIMIT
    requires Nonce(nb, m, j) == Nonce(nb, n, k)
    ensures m == n && j == k
  {
    var q := Nonce(nb, m, j);
    QuotientUnique(q, nb, j, m);
    QuotientUnique(q, nb, k, n);
    Divide(q, nb);
    SameFactor(j, k, nb);
  }

  lemma SameFactor(j: nat, k: nat, nb: nat)
    requires 0 < nb && j * nb == k * nb
    ensures j == k
  {
    NonzeroMultiple(j - k, nb);
    assert (j - k) * nb == 0;
  }

  ghost predicate Tried(nb: nat, k: nat, q: U64) {
    exists n, j :: 0 <= n < nb && 0 <= j < k && q == Nonce(nb, n, j)
  }

  /** k rounds of all threads try exactly the nonces below k * nbthread. */
  lemma RoundsCover(nb: nat, k: nat, q: U64)
    requires 0 < nb && k * nb <= U64_LIMIT
    ensures Tried(nb, k, q) <==> q < k * nb
  {
    hide *;
    if q < k * nb {
      SmallIsTried(nb, k, q);
    } else {
      TriedIsSmall(nb, k, q);
    }
  }

  lemma SmallIsTried(nb: nat, k: nat, q: U64)
    requires 0 < nb && q < k * nb
    ensures Tried(nb, k, q)
  {
    hide Nonce;
    NonceOfClass(nb, q);
    Monotone(q / nb, k, nb, 0);
  }

  lemma TriedIsSmall(nb: nat, k: nat, q: U64)
    requires 0 < nb && k * nb <= U64_LIMIT
    ensures Tried(nb, k, q) ==> q < k * nb
  {
    hide Nonce;
    if Tried(nb, k, q) {
      var n, j :| 0 <= n < nb && 0 <= j < k && q == Nonce(nb, n, j);
      WithinRounds(nb, k, n, j);
    }
  }

  lemma WithinRounds(nb: nat, k: nat, n: nat, j: nat)
    requires n < nb && j < k && k * nb <= U64_LIMIT
    ensures Nonce(nb, n, j) == n + j * nb < k * nb
  {
    OneMore(j, nb);
    MulMonotone(j + 1, k, nb);
  }
}
