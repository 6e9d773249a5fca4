/** Every fair run of the mining threads ends if some nonce passes. */
module MiningTermination {
  import opened Bytes
  import opened Mining

  function Occurs(schedule: seq<nat>, n: nat): nat {
    if schedule == [] then 0
    else Occurs(schedule[..|schedule| - 1], n) + if schedule[|schedule| - 1] == n then 1 else 0
  }

  /** Thread p % nbthread never fails more than p / nbthread times: its next nonce would be p. */
  lemma FailuresBounded(pass: Test, s: State, p: U64)
    requires 0 < |s.threads| && Inv(pass, s) && pass(p)
    ensures s.threads[p % |s.threads|].failed <= p / |s.threads|
  {
    var nb := |s.threads|;
    Divide(p, nb);
    assert ThreadInv(pass, s, p % nb);
    assert p == Nonce(nb, p % nb, p / nb);
  }

  function StepsToEnd(place: Place): nat {
    match place case AtCondition => 3 case AtHash => 2 case AtFlag => 1 case Gone => 0
  }

  /** A bound on the steps thread n still takes, if its p-th nonce passes. */
  function Measure(s: State, n: nat, bound: nat): int
    requires n < |s.threads|
  {
    if s.threads[n].place == Gone then 0
    else 2 * (bound - s.threads[n].failed) + StepsToEnd(s.threads[n].place)
  }

  lemma MeasureStep(pass: Test, s: State, p: U64, m: nat)
    requires m < |s.threads| && Inv(pass, s) && pass(p)
    ensures var nb := |s.threads|;
            var n, bound := p % nb, p / nb;
            var before, after := Measure(s, n, bound), Measure(Step(pass, s, m), n, bound);
            if m == n && before > 0 then after < before else after == before
  {
    FailuresBounded(pass, s, p);
    StepInv(pass, s, m);
    FailuresBounded(pass, Step(pass, s, m), p);
  }

  lemma {:induction false} MeasureRun(pass: Test, nb: nat, schedule: seq<nat>, p: U64)
    requires 0 < nb && ScheduleOf(nb, schedule) && pass(p)
    ensures var left := Measure(Run(pass, Init(nb), schedule), p % nb, p / nb);
            left <= 0 || left <= 2 * (p / nb) + 3 - Occurs(schedule, p % nb)
  {
    if schedule != [] {
      var front := schedule[..|schedule| - 1];
      MeasureRun(pass, nb, front, p);
      RunInv(pass, nb, front);
      MeasureStep(pass, Run(pass, Init(nb), front), p, schedule[|schedule| - 1]);
    }
  }

  /** Steps a thread still takes once the flag is set. */
  function Rest(place: Place): nat {
    match place case AtCondition => 1 case AtHash => 2 case AtFlag => 1 case Gone => 0
  }

  lemma {:induction false} RestRun(pass: Test, s: State, schedule: seq<nat>, n: nat)
    requires ScheduleOf(|s.threads|, schedule) && n < |s.threads| && s.ismining
    ensures var r := Run(pass, s, schedule);
            r.ismining && (Rest(r.threads[n].place) == 0 || Rest(r.threads[n].place) + Occurs(schedule, n) <= 2)
  {
    if schedule != [] {
      RestRun(pass, s, schedule[..|schedule| - 1], n);
    }
  }

  lemma {:induction false} RunSplits(pass: Test, s: State, first: seq<nat>, second: seq<nat>)
    requires ScheduleOf(|s.threads|, first) && ScheduleOf(|s.threads|, second)
    ensures ScheduleOf(|s.threads|, first + second)
    ensures Run(pass, s, first + second) == Run(pass, Run(pass, s, first), second)
  {
    if second == [] {
      assert first + second == first;
    } else {
      var n := |second| - 1;
      RunSplits(pass, s, first, second[..n]);
      assert (first + second)[..|first + second| - 1] == first + second[..n];
    }
  }

  /**
   If nonce p passes, every run ends in which thread p % nbthread gets 2 * (p / nbthread) + 3
   steps (at most p / nbthread + 1 of them hash) and then every thread gets two more.
   */
  lemma FairRunsEnd(pass: Test, nb: nat, first: seq<nat>, second: seq<nat>, p: U64)
    requires 0 < nb && pass(p)
    requires ScheduleOf(nb, first) && ScheduleOf(nb, second)
    requires Occurs(first, p % nb) >= 2 * (p / nb) + 3
    requires forall n | 0 <= n < nb :: Occurs(second, n) >= 2
    ensures ScheduleOf(nb, first + second)
    ensures AllGone(Run(pass, Init(nb), first + second))
  {
    var s := Run(pass, Init(nb), first);
    RunInv(pass, nb, first);
    MeasureRun(pass, nb, first, p);
    FailuresBounded(pass, s, p);
    assert ThreadInv(pass, s, p % nb);
    RunSplits(pass, Init(nb), first, second);
    var r := Run(pass, s, second);
    forall n | 0 <= n < nb
      ensures r.threads[n].place == Gone
    {
      RestRun(pass, s, second, n);
    }
  }

  /** The thread gets a step at or after the given moment of an infinite schedule. */
  ghost predicate Later(schedule: nat -> nat, n: nat, moment: nat) {
    exists i :: moment <= i && schedule(i) == n
  }

  /** Only threads of the call are scheduled, and each of them again and again. */
  ghost predicate Fair(nb: nat, schedule: nat -> nat) {
    && (forall i :: schedule(i) < nb)
    && forall n: nat, moment: nat | n < nb :: Later(schedule, n, moment)
  }

  /** The steps from one moment to another. */
  function Part(schedule: nat -> nat, from: nat, to: nat): (s: seq<nat>)
    requires from <= to
    ensures |s| == to - from
  {
    seq(to - from, i requires 0 <= i < to - from => schedule(from + i))
  }

  lemma {:induction false} OccursAppends(a: seq<nat>, b: seq<nat>, n: nat)
    ensures Occurs(a + b, n) == Occurs(a, n) + Occurs(b, n)
  {
    if b == [] {
      assert a + b == a;
    } else {
      var last := |b| - 1;
      assert (a + b)[..|a + b| - 1] == a + b[..last];
      OccursAppends(a, b[..last], n);
    }
  }

  lemma PartsJoin(schedule: nat -> nat, from: nat, mid: nat, to: nat, n: nat)
    requires from <= mid <= to
    ensures Part(schedule, from, to) == Part(schedule, from, mid) + Part(schedule, mid, to)
    ensures Occurs(Part(schedule, from, to), n) == Occurs(Part(schedule, from, mid), n) + Occurs(Part(schedule, mid, to), n)
  {
    assert Part(schedule, from, to) == Part(schedule, from, mid) + Part(schedule, mid, to);
    OccursAppends(Part(schedule, from, mid), Part(schedule, mid, to), n);
  }

  /** In a fair schedule every thread gets as many steps as one likes after any moment. */
  lemma {:induction false} StepsComeBy(nb: nat, schedule: nat -> nat, n: nat, from: nat, count: nat) returns (to: nat)
    requires Fair(nb, schedule) && n < nb
    ensures from <= to && Occurs(Part(schedule, from, to), n) >= count
  {
    if count == 0 {
      to := from;
    } else {
      var mid := StepsComeBy(nb, schedule, n, from, count - 1);
      assert Later(schedule, n, mid);
      var i :| mid <= i && schedule(i) == n;
      to := i + 1;
      PartsJoin(schedule, from, mid, to, n);
      PartsJoin(schedule, mid, i, to, n);
      assert Part(schedule, i, to) == [n] && Occurs([n], n) == 1;
    }
  }

  lemma {:induction false} AllComeTwice(nb: nat, schedule: nat -> nat, from: nat, k: nat) returns (to: nat)
    requires Fair(nb, schedule) && k <= nb
    ensures from <= to && forall n | 0 <= n < k :: Occurs(Part(schedule, from, to), n) >= 2
  {
    if k == 0 {
      to := from;
    } else {
      var mid := AllComeTwice(nb, schedule, from, k - 1);
      to := StepsComeBy(nb, schedule, k - 1, mid, 2);
      forall n | 0 <= n < k
        ensures Occurs(Part(schedule, from, to), n) >= 2
      {
        PartsJoin(schedule, from, mid, to, n);
      }
    }
  }

  /** If some nonce passes, then after finitely many steps of any fair schedule all threads have ended. */
  lemma FairSchedulesEnd(pass: Test, nb: nat, schedule: nat -> nat, p: U64)
    requires 0 < nb && pass(p) && Fair(nb, schedule)
    ensures exists n: nat :: ScheduleOf(nb, Part(schedule, 0, n)) && AllGone(Run(pass, Init(nb), Part(schedule, 0, n)))
  {
    hide Run, AllGone, Occurs;
    var mid := StepsComeBy(nb, schedule, p % nb, 0, 2 * (p / nb) + 3);
    var end := AllComeTwice(nb, schedule, mid, nb);
    PartsJoin(schedule, 0, mid, end, 0);
    FairRunsEnd(pass, nb, Part(schedule, 0, mid), Part(schedule, mid, end), p);
  }

  function Times(n: nat, k: nat): (s: seq<nat>) {
    if k == 0 then [] else Times(n, k - 1) + [n]
  }

  lemma {:induction false} OccursTimes(n: nat, k: nat, m: nat)
    ensures Occurs(Times(n, k), m) == if m == n then k else 0
    ensures forall i | 0 <= i < |Times(n, k)| :: Times(n, k)[i] == n
  {
    if k > 0 {
      OccursTimes(n, k - 1, m);
    }
  }

  /** Threads 0 to nb - 1 twice each. */
  function TwiceEach(nb: nat): seq<nat> {
    if nb == 0 then [] else TwiceEach(nb - 1) + [nb - 1] + [nb - 1]
  }

  lemma {:induction false} OccursTwice(nb: nat)
    ensures ScheduleOf(nb, TwiceEach(nb))
    ensures forall n | 0 <= n < nb :: Occurs(TwiceEach(nb), n) >= 2
  {
    if nb > 0 {
      OccursTwice(nb - 1);
      var once := TwiceEach(nb - 1) + [nb - 1];
      forall n | 0 <= n < nb
        ensures Occurs(TwiceEach(nb), n) >= 2
      {
        assert once[..|once| - 1] == TwiceEach(nb - 1);
        assert TwiceEach(nb)[..|TwiceEach(nb)| - 1] == once;
        assert once[|once| - 1] == nb - 1;
        assert Occurs(once, n) == Occurs(TwiceEach(nb - 1), n) + if n == nb - 1 then 1 else 0;
        assert Occurs(TwiceEach(nb), n) == Occurs(once, n) + if n == nb - 1 then 1 else 0;
      }
    }
  }

  /** Mining has a result exactly when some nonce passes. */
  lemma ResultExists(pass: Test, nb: nat)
    requires 0 < nb
    ensures (exists proof :: MiningResult(pass, nb, proof)) <==> exists p: U64 :: pass(p)
  {
    if p: U64 :| pass(p) {
      var first := Times(p % nb, 2 * (p / nb) + 3);
      OccursTimes(p % nb, 2 * (p / nb) + 3, p % nb);
      OccursTwice(nb);
      FairRunsEnd(pass, nb, first, TwiceEach(nb), p);
      var schedule := first + TwiceEach(nb);
      assert MiningResult(pass, nb, LastPassing(pass, Outputs(Run(pass, Init(nb), schedule))));
    }
    if proof :| MiningResult(pass, nb, proof) {
      MiningIsSafe(pass, nb, proof);
    }
  }
}
