/** Whole runs of the check queue from its construction: what every `Wait` returns, and that it returns. */
module CheckQueueRuns {
  import opened CheckQueue

  /** `Wait` returns with this step. */
  predicate Returns(step: Step, after: State) {
    step == Acquire(0) && |after.threads| > 0 && after.threads[0].Outside?
  }

  /** The checks added since `Wait` last returned. */
  ghost function Added(run: seq<Event>): multiset<Check> {
    if run == [] then multiset{}
    else
      var e := run[|run| - 1];
      if Returns(e.step, e.after) then multiset{}
      else Added(run[..|run| - 1]) + if e.step.AddChecks? then multiset(e.step.checks) else multiset{}
  }

  ghost predicate AllGood(checks: multiset<Check>, good: Check -> bool) { forall c | c in checks :: good(c) }

  // ------------------------------------------------------------------ what `Wait` returns

  lemma ProceedRound(c: State, t: nat)
    requires t < |c.threads| && c.nTotal + c.nIdle + 1 > 0
    ensures var r := Proceed(c, t);
            |r.threads| == |c.threads| && r.round == if Returns(Acquire(t), r) then multiset{} else c.round
  {
    hide BatchOf;
  }

  /** The round is what has been added since the last return. */
  lemma RoundStep(s: State, step: Step, s': State, good: Check -> bool)
    requires Inv(s, good) && Next(s, step, s', good)
    ensures s'.round == if Returns(step, s') then multiset{}
                        else s.round + if step.AddChecks? then multiset(step.checks) else multiset{}
  {
    hide Inv, CleanUp, Proceed, Account;
    CanApply(s, step, good);
    if step.Acquire? {
      var c := CleanUp(s, step.thread);
      CleanUpRound(s, step.thread);
      ProceedRound(c, step.thread);
    }
  }

  lemma InitiallyFree(batchSize: nat, workers: nat)
    ensures NobodyInside(Initial(batchSize, workers))
  {
  }

  /** From the construction on: the invariant, a free mutex between steps, and the round as it was added. */
  lemma {:induction false} RunFromInitial(batchSize: nat, workers: nat, run: seq<Event>, good: Check -> bool)
    requires IsRun(Initial(batchSize, workers), run, good)
    ensures var s := Last(Initial(batchSize, workers), run);
            Inv(s, good) && NobodyInside(s) && s.round == Added(run)
  {
    var start := Initial(batchSize, workers);
    if run == [] {
      InitialOk(batchSize, workers, good);
      InitiallyFree(batchSize, workers);
    } else {
      hide Inv, NobodyInside, Initial, Apply, Enabled;
      var before, e := run[..|run| - 1], run[|run| - 1];
      RunFromInitial(batchSize, workers, before, good);
      var s := Last(start, before);
      StepKeeps(s, e.step, good);
      MutexReleased(s, e.step, good);
      RoundStep(s, e.step, e.after, good);
    }
  }

  /** In every run, with any batch size and any number of workers, each return of `Wait` says whether all
      checks added since the previous return are good, and leaves none of them queued or in a batch. */
  lemma EveryVerdict(batchSize: nat, workers: nat, run: seq<Event>, i: nat, good: Check -> bool)
    requires IsRun(Initial(batchSize, workers), run, good) && i < |run| && Returns(run[i].step, run[i].after)
    ensures run[i].after.verdict == AllGood(Added(run[..i]), good)
    ensures run[i].after.queue == [] && forall t | t in run[i].after.threads :: !t.Holding?
  {
    hide Inv, Initial, Apply, Enabled;
    var start := Initial(batchSize, workers);
    RunPrefix(start, run, i + 1, good);
    assert run[..i + 1][..i] == run[..i];
    RunFromInitial(batchSize, workers, run[..i], good);
    RunFromInitial(batchSize, workers, run[..i + 1], good);
    WaitVerdict(Last(start, run[..i]), run[i].after, good);
    NothingQueued(run[i].after, good);
  }

  lemma NothingQueued(s: State, good: Check -> bool)
    requires Inv(s, good) && s.nTodo == 0
    ensures s.queue == []
  {
    NothingNegative(s);
  }

  // --------------------------------------------------------------------- `Wait` returns

  /** The thread is running checks, or could have the mutex. */
  predicate Ready(t: Thread) { CanAcquire(t) || (t.Holding? && t.run < |t.batch|) }

  predicate Moves(step: Step, t: nat) { step == Acquire(t) || step == RunCheck(t) }

  /** The thread's next move gets work done or returns from `Wait`. */
  ghost predicate Useful(s: State, t: nat) {
    && t < |s.threads| && Ready(s.threads[t])
    && (s.threads[t].Holding? || (t == 0 && (s.queue != [] || s.nTodo == 0)))
  }

  lemma SomeoneUseful(s: State, good: Check -> bool) returns (t: nat)
    requires Inv(s, good) && MasterWaits(s) && NobodyInside(s)
    ensures Useful(s, t)
  {
    assert ThreadOk(s.threads[0], s.round, good);
    hide CountsOk, FlagOk, ThreadsOk;
    var step := NeverStuck(s, good);
    t := if s.threads[step.thread].Holding? then step.thread else 0;
  }

  lemma ProceedMaster(c: State, t: nat)
    requires t < |c.threads| && c.nTotal + c.nIdle + 1 > 0 && MasterWaits(c)
    ensures Returns(Acquire(t), Proceed(c, t)) || MasterWaits(Proceed(c, t))
  {
    hide BatchOf;
  }

  /** Taking the mutex without a batch and finding nothing queued. */
  lemma FruitlessAcquire(s: State, u: nat, s': State, t: nat, good: Check -> bool)
    requires Inv(s, good) && MasterWaits(s) && Useful(s, t) && Enabled(s, Acquire(u)) && Next(s, Acquire(u), s', good)
    requires !s.threads[u].Holding? && s.queue == []
    ensures Returns(Acquire(u), s') || (u != t && Useful(s', t))
  {
    CanApply(s, Acquire(u), good);
    hide CountsOk, FlagOk, ThreadsOk, MasterOk, BatchOf;
    var a := Account(s, u);
    assert CleanUp(s, u) == a && a.queue == [] && a.nTodo == s.nTodo && a.threads == s.threads[u := Inside];
    hide Account, CleanUp;
  }

  lemma AcquireOutcome(s: State, u: nat, s': State, t: nat, good: Check -> bool)
    requires Inv(s, good) && MasterWaits(s) && Useful(s, t) && Enabled(s, Acquire(u)) && Next(s, Acquire(u), s', good)
    ensures Returns(Acquire(u), s') || MasterWaits(s')
    ensures Returns(Acquire(u), s') || Work(s') < Work(s) || (Work(s') <= Work(s) && u != t && Useful(s', t))
  {
    hide CountsOk, FlagOk, ThreadsOk, MasterOk, Proceed, Work, Useful;
    CanApply(s, Acquire(u), good);
    ProceedMaster(CleanUp(s, u), u);
    WorkShrinks(s, Acquire(u), good);
    hide CleanUp;
    if !s.threads[u].Holding? && s.queue == [] {
      FruitlessAcquire(s, u, s', t, good);
    }
  }

  /** While the master waits, a step of whatever thread returns from `Wait`, gets work done, or is not the
      move of a given useful thread and leaves that thread useful. */
  lemma StepOutcome(s: State, step: Step, s': State, t: nat, good: Check -> bool)
    requires Inv(s, good) && MasterWaits(s) && Useful(s, t) && Next(s, step, s', good)
    ensures Returns(step, s') || MasterWaits(s')
    ensures Returns(step, s') || Work(s') < Work(s) || (Work(s') <= Work(s) && !Moves(step, t) && Useful(s', t))
    ensures !step.AddChecks?
  {
    hide CountsOk, FlagOk, ThreadsOk, MasterOk, CleanUp, Proceed, Work;
    CanApply(s, step, good);
    WorkShrinks(s, step, good);
    if step.Acquire? {
      AcquireOutcome(s, step.thread, s', t, good);
    }
  }

  /** An endless run. */
  ghost predicate IsEndless(states: nat -> State, steps: nat -> Step, good: Check -> bool) {
    forall n: nat :: Next(states(n), steps(n), states(n + 1), good)
  }

  ghost predicate MovesFrom(steps: nat -> Step, t: nat, n: nat) { exists m: nat :: m >= n && Moves(steps(m), t) }

  /** No thread that could go on is passed over for ever; every check comes to an end. */
  ghost predicate Fair(states: nat -> State, steps: nat -> Step) {
    forall n: nat, t: nat :: t < |states(n).threads| && Ready(states(n).threads[t]) ==> MovesFrom(steps, t, n)
  }

  /** The master has returned by step `m`, having waited since `n`, with the verdict on the round. */
  ghost predicate ReturnsAt(states: nat -> State, steps: nat -> Step, n: nat, m: nat, good: Check -> bool) {
    && n <= m && (forall k | n <= k <= m :: MasterWaits(states(k)))
    && Returns(steps(m), states(m + 1))
    && states(m + 1).verdict == AllGood(states(n).round, good)
  }

  lemma NextUseful(states: nat -> State, steps: nat -> Step, n: nat, good: Check -> bool) returns (t: nat, d: nat)
    requires Fair(states, steps) && Inv(states(n), good) && MasterWaits(states(n)) && NobodyInside(states(n))
    ensures Useful(states(n), t) && Moves(steps(n + d), t)
  {
    t := SomeoneUseful(states(n), good);
    hide Inv;
    assert MovesFrom(steps, t, n);
    var m: nat :| m >= n && Moves(steps(m), t);
    d := m - n;
  }

  /** Thread `t` is useful and moves `d` steps from now. */
  lemma {:induction false} Pursue(states: nat -> State, steps: nat -> Step, n: nat, t: nat, d: nat, good: Check -> bool)
    returns (m: nat)
    requires IsEndless(states, steps, good) && Fair(states, steps)
    requires Inv(states(n), good) && MasterWaits(states(n)) && NobodyInside(states(n))
    requires Useful(states(n), t) && Moves(steps(n + d), t)
    ensures ReturnsAt(states, steps, n, m, good)
    decreases Work(states(n)), d
  {
    hide Inv, MasterWaits, NobodyInside, Useful, Work, Apply, Enabled, Fair, Returns, Moves;
    var s, step, s' := states(n), steps(n), states(n + 1);
    assert Next(s, step, s', good);
    StepOutcome(s, step, s', t, good);
    StepKeeps(s, step, good);
    MutexReleased(s, step, good);
    RoundStep(s, step, s', good);
    if Returns(step, s') {
      ReturnVerdictIs(s, step, s', good);
      m := n;
    } else {
      var t', d' := t, d - 1;
      if Work(s') < Work(s) {
        t', d' := NextUseful(states, steps, n + 1, good);
      }
      m := Pursue(states, steps, n + 1, t', d', good);
    }
  }

  lemma ReturnVerdictIs(s: State, step: Step, s': State, good: Check -> bool)
    requires Inv(s, good) && Next(s, step, s', good) && Returns(step, s')
    ensures s'.verdict == AllGood(s.round, good)
  {
    hide Inv, Apply, Enabled;
    WaitVerdict(s, s', good);
  }

  ghost function Prefix(states: nat -> State, steps: nat -> Step, n: nat): seq<Event> {
    if n == 0 then [] else Prefix(states, steps, n - 1) + [Event(steps(n - 1), states(n))]
  }

  lemma {:induction false} PrefixIsRun(states: nat -> State, steps: nat -> Step, n: nat, good: Check -> bool)
    requires IsEndless(states, steps, good)
    ensures IsRun(states(0), Prefix(states, steps, n), good) && Last(states(0), Prefix(states, steps, n)) == states(n)
  {
    hide Next;
    if n > 0 {
      PrefixIsRun(states, steps, n - 1, good);
      var run := Prefix(states, steps, n);
      assert run[..|run| - 1] == Prefix(states, steps, n - 1);
      assert Next(states(n - 1), steps(n - 1), states(n - 1 + 1), good);
    }
  }

  /**
   * Every `Wait` returns, with the right verdict: in every fair run from the construction of the queue,
   * whatever the batch size and the number of workers, also none, a master that is in `Wait` comes to
   * return whether all checks added since its previous return are good. Notifications may reach whichever
   * worker and threads may wake up unasked for.
   */
  lemma WaitReturns(batchSize: nat, workers: nat, states: nat -> State, steps: nat -> Step, n: nat, good: Check -> bool)
    returns (m: nat)
    requires states(0) == Initial(batchSize, workers) && IsEndless(states, steps, good) && Fair(states, steps)
    requires MasterWaits(states(n))
    ensures n <= m && (forall k | n <= k <= m :: MasterWaits(states(k))) && Returns(steps(m), states(m + 1))
    ensures states(m + 1).verdict == AllGood(Added(Prefix(states, steps, n)), good)
  {
    hide Inv, MasterWaits, NobodyInside, Useful, Next, Fair, Returns, Moves, Initial;
    PrefixIsRun(states, steps, n, good);
    RunFromInitial(batchSize, workers, Prefix(states, steps, n), good);
    var t, d := NextUseful(states, steps, n, good);
    m := Pursue(states, steps, n, t, d, good);
  }

  lemma {:induction false} RunPrepend(s: State, e: Event, run: seq<Event>, good: Check -> bool)
    requires Next(s, e.step, e.after, good) && IsRun(e.after, run, good)
    ensures IsRun(s, [e] + run, good) && Last(s, [e] + run) == Last(e.after, run)
  {
    hide Next;
    if run == [] {
      assert [e] + run == [e] && [e][..0] == [];
    } else {
      var before := run[..|run| - 1];
      RunPrepend(s, e, before, good);
      assert ([e] + run)[..|run|] == [e] + before;
    }
  }

  /** Such a return is never further away than the work left: some schedule gets there within that many
      steps, and one more for the return. */
  lemma {:induction false} CanReturn(s: State, good: Check -> bool) returns (run: seq<Event>)
    requires Inv(s, good) && MasterWaits(s) && NobodyInside(s)
    ensures IsRun(s, run, good) && 0 < |run| <= Work(s) + 1
    ensures Returns(run[|run| - 1].step, run[|run| - 1].after)
    decreases Work(s)
  {
    hide Inv, MasterWaits, NobodyInside, Work, Returns, Apply;
    var t := SomeoneUseful(s, good);
    var step := if CanAcquire(s.threads[t]) then Acquire(t) else RunCheck(t);
    assert Enabled(s, step) by { InvThreads(s, good); }
    StepKeeps(s, step, good);
    MutexReleased(s, step, good);
    var e := Event(step, Apply(s, step, good));
    StepOutcome(s, step, e.after, t, good);
    hide Enabled, Useful, Moves;
    run := [];
    if !Returns(step, e.after) {
      run := CanReturn(e.after, good);
    }
    RunPrepend(s, e, run, good);
    run := [e] + run;
  }

  lemma InvThreads(s: State, good: Check -> bool)
    requires Inv(s, good)
    ensures |s.threads| > 0
  {
  }
}
