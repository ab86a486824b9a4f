/** The verification queue: one master and any number of workers share a stack of checks. Everything a
    thread does while it holds the mutex is one step. */
module CheckQueue {
  import opened Collections

  type Check = int

  /** Where a thread is. `Holding` a batch it runs checks without the mutex; `Waiting` and `Woken` are
      inside the condition variable's wait, before and after a notification; `Inside` has the mutex. */
  datatype Thread =
    | Outside
    | Notifying(added: nat)
    | Entering
    | Holding(batch: seq<Check>, run: nat, ok: bool)
    | Waiting
    | Woken
    | Inside

  /** Thread 0 is the master. `round` and `finished` are the checks added, and those accounted for, since
      the last `Wait` returned; `verdict` is what that `Wait` returned. */
  datatype State = State(
    batchSize: nat,
    queue: seq<Check>,
    nTodo: int,
    nIdle: int,
    nTotal: int,
    allOk: bool,
    threads: seq<Thread>,
    round: multiset<Check>,
    finished: multiset<Check>,
    verdict: bool)

  datatype Step =
    | AddChecks(checks: seq<Check>)
    | Notify(worker: nat)
    | CallWait
    | Acquire(thread: nat)
    | RunCheck(thread: nat)
    | Spurious(thread: nat)

  function Initial(batchSize: nat, workers: nat): State {
    State(batchSize, [], 0, 0, 0, true, [Outside] + seq(workers, _ => Entering), multiset{}, multiset{}, true)
  }

  // ---------------------------------------------------------------------- the steps

  /** The thread runs no check and can take the mutex. */
  predicate CanAcquire(t: Thread) {
    t.Entering? || t.Woken? || (t.Holding? && t.run == |t.batch|)
  }

  predicate Enabled(s: State, step: Step) {
    && |s.threads| > 0
    && match step
       case AddChecks(checks) => s.threads[0].Outside?
       case Notify(w) => s.threads[0].Notifying?
       case CallWait => s.threads[0].Outside?
       case Acquire(t) => t < |s.threads| && CanAcquire(s.threads[t])
       case RunCheck(t) => t < |s.threads| && s.threads[t].Holding? && s.threads[t].run < |s.threads[t].batch|
       case Spurious(t) => t < |s.threads| && s.threads[t].Waiting?
  }

  function Wake(t: Thread): Thread { if t.Waiting? then Woken else t }

  /** The thread has the mutex, and the batch it comes back with is accounted for. */
  function Account(s: State, t: nat): State
    requires t < |s.threads|
  {
    var inside := s.threads[t := Inside];
    match s.threads[t]
    case Holding(batch, _, ok) =>
      s.(allOk := s.allOk
          && ok, nTodo := s.nTodo - |batch|, finished := s.finished + multiset(batch), threads := inside)
    case Woken => s.(nIdle := s.nIdle - 1, threads := inside)
    case _ => s.(nTotal := s.nTotal + 1, threads := inside)
  }

  function WakeThread(s: State, t: nat): State
    requires t < |s.threads|
  {
    s.(threads := s.threads[t := Wake(s.threads[t])])
  }

  /** The part of a critical section before the queue is looked at: a worker that finished the last check
      tells the master. */
  function CleanUp(s: State, t: nat): State
    requires t < |s.threads|
  {
    var a := Account(s, t);
    if s.threads[t].Holding? && a.nTodo == 0 && t != 0 then WakeThread(a, 0) else a
  }

  /** How many checks a thread takes: never none, never more than there are. */
  function BatchOf(s: State): (n: int)
    requires s.nTotal + s.nIdle + 1 > 0
    ensures s.queue != [] ==> 1 <= n <= |s.queue|
  {
    Max(1, Min(s.batchSize, |s.queue| / (s.nTotal + s.nIdle + 1)))
  }

  /** The rest of the critical section: return, wait, or take a batch off the end of the queue. */
  function Proceed(s: State, t: nat): State
    requires t < |s.threads| && s.nTotal + s.nIdle + 1 > 0
  {
    if s.queue == [] then
      if t == 0 && s.nTodo == 0 then
        s.(nTotal := s.nTotal - 1, verdict := s.allOk, allOk := true, threads := s.threads[0 := Outside],
           round := multiset{}, finished := multiset{})
      else
        s.(nIdle := s.nIdle + 1, threads := s.threads[t := Waiting])
    else
      var rest := |s.queue| - BatchOf(s);
      s.(queue := s.queue[..rest], threads := s.threads[t := Holding(s.queue[rest..], 0, s.allOk)])
  }

  function Apply(s: State, step: Step, good: Check -> bool): State
    requires Enabled(s, step) && (step.Acquire? ==> var c := CleanUp(s, step.thread); c.nTotal + c.nIdle + 1 > 0)
  {
    match step
    case AddChecks(checks) =>
      if checks == [] then s
      else s.(queue := s.queue + checks, nTodo := s.nTodo + |checks|, round := s.round + multiset(checks),
              threads := s.threads[0 := Notifying(|checks|)])
    case Notify(w) =>
      var woken := if s.threads[0].added == 1
                   then (if 0 < w < |s.threads| then s.threads[w := Wake(s.threads[w])] else s.threads)
                   else seq(|s.threads|, i requires 0 <= i < |s.threads| => Wake(s.threads[i]));
      s.(threads := woken[0 := Outside])
    case CallWait => s.(threads := s.threads[0 := Entering])
    case Acquire(t) => Proceed(CleanUp(s, t), t)
    case RunCheck(t) =>
      var h := s.threads[t];
      s.(threads := s.threads[t := h.(run := h.run + 1, ok := h.ok && good(h.batch[h.run]))])
    case Spurious(t) => s.(threads := s.threads[t := Woken])
  }

  // ------------------------------------------------------------------ the invariant

  function Size(t: Thread): nat { if t.Holding? then |t.batch| else 0 }
  function Idle(t: Thread): nat { if t.Waiting? || t.Woken? then 1 else 0 }
  function Present(t: Thread): nat { if t.Outside? || t.Notifying? || t.Entering? then 0 else 1 }

  ghost function Sum(ts: seq<Thread>, f: Thread -> nat): nat {
    if ts == [] then 0 else Sum(ts[..|ts| - 1], f) + f(ts[|ts| - 1])
  }

  lemma {:induction false} SumUpdate(ts: seq<Thread>, i: nat, t: Thread, f: Thread -> nat)
    requires i < |ts|
    ensures Sum(ts[i := t], f) == Sum(ts, f) - f(ts[i]) + f(t)
  {
    var last := |ts| - 1;
    if i < last {
      SumUpdate(ts[..last], i, t, f);
      assert ts[i := t][..last] == ts[..last][i := t];
    } else {
      assert ts[i := t][..last] == ts[..last];
    }
  }

  lemma {:induction false} SumAtLeast(ts: seq<Thread>, i: nat, f: Thread -> nat)
    requires i < |ts|
    ensures Sum(ts, f) >= f(ts[i])
  {
    if i < |ts| - 1 {
      SumAtLeast(ts[..|ts| - 1], i, f);
    }
  }

  /** A positive sum has a positive term. */
  lemma {:induction false} SumPositive(ts: seq<Thread>, f: Thread -> nat) returns (i: nat)
    requires Sum(ts, f) > 0
    ensures i < |ts| && f(ts[i]) > 0
  {
    var last := |ts| - 1;
    if f(ts[last]) > 0 {
      i := last;
    } else {
      i := SumPositive(ts[..last], f);
    }
  }

  ghost function BatchChecks(t: Thread): multiset<Check> { if t.Holding? then multiset(t.batch) else multiset{} }

  /** All checks in the threads' batches. */
  ghost function InFlight(ts: seq<Thread>): multiset<Check> {
    if ts == [] then multiset{} else InFlight(ts[..|ts| - 1]) + BatchChecks(ts[|ts| - 1])
  }

  lemma {:induction false} InFlightUpdate(ts: seq<Thread>, i: nat, t: Thread)
    requires i < |ts|
    ensures InFlight(ts[i := t]) + BatchChecks(ts[i]) == InFlight(ts) + BatchChecks(t)
  {
    var last := |ts| - 1;
    if i < last {
      InFlightUpdate(ts[..last], i, t);
      assert ts[i := t][..last] == ts[..last][i := t];
      AddBoth(InFlight(ts[..last][i := t]), BatchChecks(ts[i]), InFlight(ts[..last]), BatchChecks(t),
          BatchChecks(ts[last]));
    } else {
      assert ts[i := t][..last] == ts[..last];
      assert InFlight(ts[..last]) + BatchChecks(t) + BatchChecks(ts[last]) ==
             InFlight(ts[..last]) + BatchChecks(ts[last]) + BatchChecks(t);
    }
  }

  lemma AddBoth(a: multiset<Check>, x: multiset<Check>, b: multiset<Check>, y: multiset<Check>, m: multiset<Check>)
    requires a + x == b + y
    ensures (a + m) + x == (b + m) + y
  {
    assert (a + m) + x == (a + x) + m;
    assert (b + m) + y == (b + y) + m;
  }

  ghost predicate AnyBad(m: multiset<Check>, good: Check -> bool) { exists c | c in m :: !good(c) }

  /** What a thread's own flag says about the checks it has run. */
  ghost predicate ThreadOk(t: Thread, round: multiset<Check>, good: Check -> bool) {
    t.Holding? ==>
      && |t.batch| > 0 && t.run <= |t.batch|
      && (t.ok ==> forall j | 0 <= j < t.run :: good(t.batch[j]))
      && (!t.ok ==> AnyBad(round, good))
  }

  ghost predicate ThreadsOk(s: State, good: Check -> bool) {
    forall i | 0 <= i < |s.threads| ::
      ThreadOk(s.threads[i], s.round, good) && (i > 0 ==> !s.threads[i].Outside? && !s.threads[i].Notifying?)
  }

  /** Counters are exact, and every check of the round is queued, in flight or finished. */
  ghost predicate CountsOk(s: State) {
    && s.nTodo == |s.queue| + Sum(s.threads, Size)
    && s.nIdle == Sum(s.threads, Idle)
    && s.nTotal == Sum(s.threads, Present)
    && s.round == multiset(s.queue) + InFlight(s.threads) + s.finished
  }

  /** The shared flag is false only if some check of the round is bad, and true only if no finished one is. */
  ghost predicate FlagOk(s: State, good: Check -> bool) {
    && (!s.allOk ==> AnyBad(s.round, good))
    && (s.allOk ==> !AnyBad(s.finished, good))
  }

  /** A master that sleeps un-notified has something to wait for, and it is not the queue. */
  ghost predicate MasterOk(s: State)
    requires |s.threads| > 0
  {
    s.threads[0].Waiting? ==> s.queue == [] && s.nTodo > 0
  }

  ghost predicate Inv(s: State, good: Check -> bool) {
    && |s.threads| > 0
    && ThreadsOk(s, good)
    && CountsOk(s)
    && FlagOk(s, good)
    && MasterOk(s)
  }

  lemma {:induction false} AllEntering(ts: seq<Thread>)
    requires forall t | t in ts :: t.Entering? || t.Outside?
    ensures Sum(ts, Size) == 0 && Sum(ts, Idle) == 0 && Sum(ts, Present) == 0 && InFlight(ts) == multiset{}
  {
    if ts != [] {
      var last := |ts| - 1;
      assert ts[last] in ts;
      forall t | t in ts[..last] ensures t in ts { }
      AllEntering(ts[..last]);
    }
  }

  lemma InitialOk(batchSize: nat, workers: nat, good: Check -> bool)
    ensures Inv(Initial(batchSize, workers), good)
  {
    AllEntering(Initial(batchSize, workers).threads);
  }

  // ------------------------------------------------------------- every step keeps it

  /** One thread moves on, with matching changes to the books. */
  lemma CountsMove(s: State, t: nat, s': State)
    requires CountsOk(s) && t < |s.threads| == |s'.threads|
    requires s'.threads == s.threads[t := s'.threads[t]]
    requires s'.nTodo - |s'.queue| - Size(s'.threads[t]) == s.nTodo - |s.queue| - Size(s.threads[t])
    requires s'.nIdle - Idle(s'.threads[t]) == s.nIdle - Idle(s.threads[t])
    requires s'.nTotal - Present(s'.threads[t]) == s.nTotal - Present(s.threads[t])
    requires s'.round + (multiset(s.queue) + BatchChecks(s.threads[t]) + s.finished) ==
             s.round + (multiset(s'.queue) + BatchChecks(s'.threads[t]) + s'.finished)
    ensures CountsOk(s')
  {
    var to := s'.threads[t];
    SumUpdate(s.threads, t, to, Size);
    SumUpdate(s.threads, t, to, Idle);
    SumUpdate(s.threads, t, to, Present);
    InFlightUpdate(s.threads, t, to);
    hide Sum, InFlight, BatchChecks;
    Rebalance(s'.round, multiset(s.queue), BatchChecks(s.threads[t]), s.finished, InFlight(s.threads),
              multiset(s'.queue), BatchChecks(to), s'.finished, InFlight(s'.threads));
  }

  lemma Rebalance(round: multiset<Check>, q: multiset<Check>, b: multiset<Check>, f: multiset<Check>,
                  i: multiset<Check>,
                  q': multiset<Check>, b': multiset<Check>, f': multiset<Check>, i': multiset<Check>)
    requires round + (q + b + f) == (q + i + f) + (q' + b' + f') && i' + b == i + b'
    ensures round == q' + i' + f'
  {
    forall c: Check ensures round[c] == (q' + i' + f')[c] {
      assert (round + (q + b + f))[c] == ((q + i + f) + (q' + b' + f'))[c];
      assert (i' + b)[c] == (i + b')[c];
    }
  }

  lemma AccountCounts(s: State, t: nat)
    requires CountsOk(s) && t < |s.threads| && CanAcquire(s.threads[t])
    ensures CountsOk(Account(s, t))
  {
    hide CountsOk;
    var a := Account(s, t);
    Regroup(multiset(s.queue), BatchChecks(s.threads[t]), s.finished);
    assert a.finished == s.finished + BatchChecks(s.threads[t]);
    CountsMove(s, t, a);
  }

  lemma Regroup(q: multiset<Check>, b: multiset<Check>, f: multiset<Check>)
    ensures q + b + f == q + multiset{} + (f + b)
  {
  }

  lemma AccountFlag(s: State, t: nat, good: Check -> bool)
    requires FlagOk(s, good) && t < |s.threads| && CanAcquire(s.threads[t]) && ThreadOk(s.threads[t], s.round, good)
    ensures FlagOk(Account(s, t), good)
  {
    var a := Account(s, t);
    if s.threads[t].Holding? && a.allOk {
      var batch := s.threads[t].batch;
      forall c | c in a.finished ensures good(c) {
        if c !in s.finished {
          assert c in multiset(batch) && c in batch;
        }
      }
    }
  }

  lemma AccountThreads(s: State, t: nat, good: Check -> bool)
    requires ThreadsOk(s, good) && t < |s.threads|
    ensures ThreadsOk(Account(s, t), good)
  {
    hide ThreadOk;
    assert ThreadOk(Inside, s.round, good) by { InsideOk(s.round, good); }
  }

  lemma InsideOk(round: multiset<Check>, good: Check -> bool)
    ensures ThreadOk(Inside, round, good) && ThreadOk(Woken, round, good) && ThreadOk(Waiting, round, good)
    ensures ThreadOk(Outside, round, good) && ThreadOk(Entering, round, good)
  {
  }

  /** A notification, or a wake-up for no reason. */
  lemma WakeKeeps(s: State, t: nat, good: Check -> bool)
    requires |s.threads| > 0 && ThreadsOk(s, good) && CountsOk(s) && t < |s.threads|
    ensures ThreadsOk(WakeThread(s, t), good) && CountsOk(WakeThread(s, t))
  {
    InsideOk(s.round, good);
    CountsMove(s, t, WakeThread(s, t));
  }

  /** Accounting for a batch, and waking the master after the last one, keeps everything. */
  lemma CleanUpKeeps(s: State, t: nat, good: Check -> bool)
    requires Inv(s, good) && t < |s.threads| && CanAcquire(s.threads[t])
    ensures Inv(CleanUp(s, t), good) && t < |CleanUp(s, t).threads| && CleanUp(s, t).threads[t].Inside?
    ensures CleanUp(s, t).nTotal >= 0 && CleanUp(s, t).nIdle >= 0
  {
    hide CountsOk, FlagOk, ThreadOk, ThreadsOk, MasterOk, Account, CleanUp;
    ThreadIs(s, t, good);
    AccountCounts(s, t);
    AccountFlag(s, t, good);
    AccountThreads(s, t, good);
    CleanedUp(s, t, Account(s, t), CleanUp(s, t), good);
    Nonnegative(CleanUp(s, t));
  }

  lemma ThreadIs(s: State, t: nat, good: Check -> bool)
    requires ThreadsOk(s, good) && t < |s.threads|
    ensures ThreadOk(s.threads[t], s.round, good)
  {
  }

  /** Waking the master, once nothing is left to do, leaves the rest as it is. */
  lemma CleanedUp(s: State, t: nat, a: State, c: State, good: Check -> bool)
    requires Inv(s, good) && t < |s.threads| && CanAcquire(s.threads[t])
    requires a == Account(s, t) && ThreadsOk(a, good) && CountsOk(a) && FlagOk(a, good) && c == CleanUp(s, t)
    ensures Inv(c, good) && t < |c.threads| && c.threads[t].Inside?
  {
    hide CountsOk, FlagOk, ThreadsOk;
    WakeKeeps(a, 0, good);
    Emptier(s, t);
    FlagFrame(a, c, good);
  }

  lemma FlagFrame(s: State, s': State, good: Check -> bool)
    requires FlagOk(s, good) && s'.allOk == s.allOk && s'.round == s.round && s'.finished == s.finished
    ensures FlagOk(s', good)
  {
  }

  lemma Nonnegative(s: State)
    requires CountsOk(s)
    ensures s.nTotal >= 0 && s.nIdle >= 0
  {
  }

  lemma Emptier(s: State, t: nat)
    requires CountsOk(s) && t < |s.threads|
    ensures Size(s.threads[t]) <= s.nTodo - |s.queue|
  {
    SumAtLeast(s.threads, t, Size);
  }

  /** One thread moves on, keeping its batch. */
  lemma MoveKeeps(s: State, t: nat, to: Thread, s': State, good: Check -> bool)
    requires |s.threads| > 0 && ThreadsOk(s, good) && CountsOk(s) && FlagOk(s, good) && t < |s.threads|
    requires ThreadOk(to, s.round, good) && (t > 0 ==> !to.Outside? && !to.Notifying?)
    requires BatchChecks(to) == BatchChecks(s.threads[t]) && Size(to) == Size(s.threads[t])
    requires s' == s.(threads := s.threads[t := to],
                      nIdle := s.nIdle - Idle(s.threads[t]) + Idle(to),
                      nTotal := s.nTotal - Present(s.threads[t]) + Present(to))
    requires MasterOk(s')
    ensures Inv(s', good)
  {
    hide CountsOk, FlagOk, ThreadOk, BatchChecks;
    CountsMove(s, t, s');
    FlagFrame(s, s', good);
  }

  /** Taking a batch moves the end of the queue into the thread. */
  lemma TakeKeeps(s: State, t: nat, good: Check -> bool)
    requires Inv(s, good) && t < |s.threads| && s.threads[t].Inside? && s.queue != []
    requires s.nTotal >= 0 && s.nIdle >= 0
    ensures Inv(Proceed(s, t), good)
  {
    hide CountsOk, FlagOk, ThreadOk, BatchOf;
    var p := Proceed(s, t);
    TakeCounts(s, t);
    FlagFrame(s, p, good);
    TakenOk(s, p.threads[t], good);
  }

  lemma TakeCounts(s: State, t: nat)
    requires CountsOk(s) && t < |s.threads| && s.threads[t].Inside? && s.queue != [] && s.nTotal >= 0 && s.nIdle >= 0
    ensures CountsOk(Proceed(s, t))
  {
    hide CountsOk, BatchOf;
    var rest := |s.queue| - BatchOf(s);
    var p := Proceed(s, t);
    QueueSplit(s.queue, rest);
    Regroup2(multiset(s.queue[..rest]), multiset(s.queue[rest..]), s.finished, s.round);
    CountsMove(s, t, p);
  }

  lemma QueueSplit(q: seq<Check>, n: nat)
    requires n <= |q|
    ensures multiset(q) == multiset(q[..n]) + multiset(q[n..])
  {
    assert q == q[..n] + q[n..];
  }

  lemma Regroup2(a: multiset<Check>, b: multiset<Check>, f: multiset<Check>, r: multiset<Check>)
    ensures r + ((a + b) + multiset{} + f) == r + (a + b + f)
  {
    assert (a + b) + multiset{} == a + b;
  }

  lemma TakenOk(s: State, t: Thread, good: Check -> bool)
    requires FlagOk(s, good) && t.Holding? && |t.batch| > 0 && t.run == 0 && t.ok == s.allOk
    ensures ThreadOk(t, s.round, good)
  {
  }

  /** Falling asleep on an empty queue, with checks of others still running if it is the master. */
  lemma SleepKeeps(s: State, t: nat, good: Check -> bool)
    requires Inv(s, good) && t < |s.threads| && s.threads[t].Inside? && s.queue == [] && !(t == 0 && s.nTodo == 0)
    requires s.nTotal >= 0 && s.nIdle >= 0
    ensures Inv(Proceed(s, t), good)
  {
    NothingNegative(s);
    hide CountsOk, FlagOk, ThreadOk, ThreadsOk;
    InsideOk(s.round, good);
    MoveKeeps(s, t, Waiting, Proceed(s, t), good);
  }

  lemma NothingNegative(s: State)
    requires CountsOk(s)
    ensures s.nTodo >= |s.queue|
  {
  }

  /** `Wait` returns the conjunction of exactly the checks of its round, and leaves no trace of them. */
  lemma ReturnKeeps(s: State, good: Check -> bool)
    requires Inv(s, good) && s.threads[0].Inside? && s.queue == [] && s.nTodo == 0
    requires s.nTotal >= 0 && s.nIdle >= 0
    ensures Inv(Proceed(s, 0), good)
    ensures Proceed(s, 0).verdict <==> forall c | c in s.round :: good(c)
    ensures s.finished == s.round
  {
    var p := Proceed(s, 0);
    NothingInFlight(s.threads);
    hide FlagOk;
    SumUpdate(s.threads, 0, Outside, Size);
    SumUpdate(s.threads, 0, Outside, Idle);
    SumUpdate(s.threads, 0, Outside, Present);
    NothingInFlight(p.threads);
    hide Sum, InFlight;
    assert s.finished == s.round;
    assert CountsOk(p);
    ReturnVerdict(s, good);
    NoneHolding(s, p, good);
  }

  lemma ReturnVerdict(s: State, good: Check -> bool)
    requires FlagOk(s, good) && s.finished == s.round
    ensures s.allOk <==> forall c | c in s.round :: good(c)
    ensures FlagOk(s.(allOk := true, round := multiset{}, finished := multiset{}), good)
  {
  }

  lemma {:induction false} NothingInFlight(ts: seq<Thread>)
    requires Sum(ts, Size) == 0
    ensures InFlight(ts) == multiset{}
    ensures forall i | 0 <= i < |ts| :: Size(ts[i]) == 0
  {
    if ts != [] {
      var last := |ts| - 1;
      NothingInFlight(ts[..last]);
      assert forall i | 0 <= i < last :: ts[..last][i] == ts[i];
      assert Size(ts[last]) == 0;
      assert BatchChecks(ts[last]) == multiset{};
    }
  }

  lemma NoneHolding(s: State, p: State, good: Check -> bool)
    requires |s.threads| > 0 && ThreadsOk(s, good) && p.threads == s.threads[0 := Outside]
    requires forall i | 0 <= i < |s.threads| :: Size(s.threads[i]) == 0
    ensures ThreadsOk(p, good)
  {
    forall i | 0 <= i < |p.threads|
      ensures ThreadOk(p.threads[i], p.round, good) && (i > 0 ==> !p.threads[i].Outside? && !p.threads[i].Notifying?)
    {
      assert ThreadOk(s.threads[i], s.round, good);
    }
  }

  lemma ProceedKeeps(s: State, t: nat, good: Check -> bool)
    requires Inv(s, good) && t < |s.threads| && s.threads[t].Inside? && s.nTotal >= 0 && s.nIdle >= 0
    ensures Inv(Proceed(s, t), good)
  {
    if s.queue != [] {
      TakeKeeps(s, t, good);
    } else if t == 0 && s.nTodo == 0 {
      ReturnKeeps(s, good);
    } else {
      SleepKeeps(s, t, good);
    }
  }

  lemma AddKeeps(s: State, checks: seq<Check>, good: Check -> bool)
    requires Inv(s, good) && Enabled(s, AddChecks(checks)) && checks != []
    ensures Inv(Apply(s, AddChecks(checks), good), good)
  {
    hide CountsOk, FlagOk, ThreadsOk;
    AddCounts(s, checks, good);
    AddFlags(s, checks, good);
  }

  lemma AddCounts(s: State, checks: seq<Check>, good: Check -> bool)
    requires CountsOk(s) && Enabled(s, AddChecks(checks)) && checks != []
    ensures CountsOk(Apply(s, AddChecks(checks), good))
  {
    hide CountsOk;
    var a := Apply(s, AddChecks(checks), good);
    assert multiset(s.queue + checks) == multiset(s.queue) + multiset(checks);
    Shuffle(s.round, multiset(s.queue), multiset(checks), s.finished);
    CountsMove(s, 0, a);
  }

  lemma Shuffle(r: multiset<Check>, q: multiset<Check>, c: multiset<Check>, f: multiset<Check>)
    ensures (r + c) + (q + multiset{} + f) == r + ((q + c) + multiset{} + f)
  {
  }

  lemma AddFlags(s: State, checks: seq<Check>, good: Check -> bool)
    requires ThreadsOk(s, good) && FlagOk(s, good) && Enabled(s, AddChecks(checks)) && checks != []
    ensures ThreadsOk(Apply(s, AddChecks(checks), good), good) && FlagOk(Apply(s, AddChecks(checks), good), good)
  {
    var a := Apply(s, AddChecks(checks), good);
    assert AnyBad(s.round, good) ==> AnyBad(a.round, good) by {
      if AnyBad(s.round, good) {
        var c :| c in s.round && !good(c);
        assert c in a.round;
      }
    }
    forall i | 0 <= i < |a.threads|
      ensures ThreadOk(a.threads[i], a.round, good) && (i > 0 ==> !a.threads[i].Outside? && !a.threads[i].Notifying?)
    {
      assert ThreadOk(s.threads[i], s.round, good);
    }
  }

  /** Everyone asleep is woken, one after the other. */
  lemma {:induction false} WakeAllKeeps(s: State, n: nat, good: Check -> bool)
    requires |s.threads| > 0 && ThreadsOk(s, good) && CountsOk(s) && n <= |s.threads|
    ensures var r := s.(threads := WokenUpTo(s.threads, n));
            ThreadsOk(r, good) && CountsOk(r)
  {
    hide ThreadsOk, CountsOk;
    if n > 0 {
      WakeAllKeeps(s, n - 1, good);
      var r := s.(threads := WokenUpTo(s.threads, n - 1));
      WakeKeeps(r, n - 1, good);
      assert WakeThread(r, n - 1).threads == WokenUpTo(s.threads, n);
    } else {
      assert WokenUpTo(s.threads, 0) == s.threads;
    }
  }

  ghost function WokenUpTo(ts: seq<Thread>, n: nat): (r: seq<Thread>)
    requires n <= |ts|
    ensures |r| == |ts|
  {
    seq(|ts|, i requires 0 <= i < |ts| => if i < n then Wake(ts[i]) else ts[i])
  }

  /** The threads a notification reaches. */
  lemma WokenBy(s: State, w: nat, good: Check -> bool) returns (woken: State)
    requires Inv(s, good) && Enabled(s, Notify(w))
    ensures woken == s.(threads := woken.threads) && |woken.threads| == |s.threads|
    ensures woken.threads[0] == s.threads[0]
    ensures ThreadsOk(woken, good) && CountsOk(woken) && FlagOk(woken, good)
    ensures Apply(s, Notify(w), good) == woken.(threads := woken.threads[0 := Outside])
  {
    hide CountsOk, FlagOk, ThreadsOk;
    if s.threads[0].added == 1 {
      woken := s;
      if 0 < w < |s.threads| {
        woken := WakeThread(s, w);
        WakeKeeps(s, w, good);
      }
    } else {
      woken := s.(threads := WokenUpTo(s.threads, |s.threads|));
      WakeAllKeeps(s, |s.threads|, good);
      assert woken.threads == seq(|s.threads|, i requires 0 <= i < |s.threads| => Wake(s.threads[i]));
    }
    FlagFrame(s, woken, good);
  }

  lemma NotifyKeeps(s: State, w: nat, good: Check -> bool)
    requires Inv(s, good) && Enabled(s, Notify(w))
    ensures Inv(Apply(s, Notify(w), good), good)
  {
    var woken := WokenBy(s, w, good);
    hide CountsOk, FlagOk, ThreadOk, ThreadsOk;
    InsideOk(s.round, good);
    MoveKeeps(woken, 0, Outside, Apply(s, Notify(w), good), good);
  }

  lemma BatchInRound(s: State, t: nat)
    requires CountsOk(s) && t < |s.threads|
    ensures BatchChecks(s.threads[t]) <= s.round
  {
    InFlightUpdate(s.threads, t, Inside);
    hide Sum, InFlight;
    var b, rest := BatchChecks(s.threads[t]), InFlight(s.threads[t := Inside]);
    assert InFlight(s.threads) == rest + b;
    forall c: Check ensures b[c] <= s.round[c] {
      assert s.round[c] == multiset(s.queue)[c] + (rest + b)[c] + s.finished[c];
    }
  }

  lemma RanOk(h: Thread, round: multiset<Check>, good: Check -> bool)
    requires h.Holding? && h.run < |h.batch| && ThreadOk(h, round, good) && multiset(h.batch) <= round
    ensures ThreadOk(h.(run := h.run + 1, ok := h.ok && good(h.batch[h.run])), round, good)
  {
    var c := h.batch[h.run];
    assert c in multiset(h.batch);
    assert c in round;
  }

  lemma RunCheckKeeps(s: State, t: nat, good: Check -> bool)
    requires Inv(s, good) && Enabled(s, RunCheck(t))
    ensures Inv(Apply(s, RunCheck(t), good), good)
  {
    hide CountsOk, FlagOk, ThreadsOk, ThreadOk;
    ThreadIs(s, t, good);
    BatchInRound(s, t);
    var r := Apply(s, RunCheck(t), good);
    RanOk(s.threads[t], s.round, good);
    MoveKeeps(s, t, r.threads[t], r, good);
  }

  /** An acquired mutex always has a positive divisor to share the queue by. */
  lemma CanApply(s: State, step: Step, good: Check -> bool)
    requires Inv(s, good) && Enabled(s, step)
    ensures step.Acquire? ==> CleanUp(s, step.thread).nTotal + CleanUp(s, step.thread).nIdle + 1 > 0
  {
    if step.Acquire? {
      CleanUpKeeps(s, step.thread, good);
    }
  }

  lemma CallWaitKeeps(s: State, good: Check -> bool)
    requires Inv(s, good) && Enabled(s, CallWait)
    ensures Inv(Apply(s, CallWait, good), good)
  {
    hide CountsOk, FlagOk, ThreadOk, ThreadsOk;
    InsideOk(s.round, good);
    MoveKeeps(s, 0, Entering, Apply(s, CallWait, good), good);
  }

  lemma SpuriousKeeps(s: State, t: nat, good: Check -> bool)
    requires Inv(s, good) && Enabled(s, Spurious(t))
    ensures Inv(Apply(s, Spurious(t), good), good)
  {
    hide CountsOk, FlagOk, ThreadOk, ThreadsOk;
    InsideOk(s.round, good);
    MoveKeeps(s, t, Woken, Apply(s, Spurious(t), good), good);
  }

  lemma StepKeeps(s: State, step: Step, good: Check -> bool)
    requires Inv(s, good) && Enabled(s, step)
    ensures step.Acquire? ==> CleanUp(s, step.thread).nTotal + CleanUp(s, step.thread).nIdle + 1 > 0
    ensures Inv(Apply(s, step, good), good)
  {
    hide Inv, CleanUp, Proceed;
    CanApply(s, step, good);
    match step
    case AddChecks(checks) =>
      if checks != [] {
        AddKeeps(s, checks, good);
      }
    case Notify(w) => NotifyKeeps(s, w, good);
    case CallWait => CallWaitKeeps(s, good);
    case Acquire(t) =>
      CleanUpKeeps(s, t, good);
      CleanUpRound(s, t);
      ProceedKeeps(CleanUp(s, t), t, good);
    case RunCheck(t) => RunCheckKeeps(s, t, good);
    case Spurious(t) => SpuriousKeeps(s, t, good);
  }

  // ---------------------------------------------------------------- every interleaving

  datatype Event = Event(step: Step, after: State)

  /** One enabled step. States outside the invariant, which do not occur, are left alone. */
  ghost predicate Next(s: State, step: Step, s': State, good: Check -> bool) {
    Inv(s, good) ==> Enabled(s, step) && (CanApply(s, step, good); s' == Apply(s, step, good))
  }

  function Last(s: State, run: seq<Event>): State { if run == [] then s else run[|run| - 1].after }

  /** A run is any interleaving of enabled steps. */
  ghost predicate IsRun(s: State, run: seq<Event>, good: Check -> bool) {
    run != [] ==>
      var (before, e) := (run[..|run| - 1], run[|run| - 1]);
      IsRun(s, before, good) && Next(Last(s, before), e.step, e.after, good)
  }

  lemma {:induction false} RunPrefix(s: State, run: seq<Event>, i: nat, good: Check -> bool)
    requires IsRun(s, run, good) && i <= |run|
    ensures IsRun(s, run[..i], good)
  {
    if i < |run| {
      RunPrefix(s, run[..|run| - 1], i, good);
      assert run[..|run| - 1][..i] == run[..i];
    } else {
      assert run[..i] == run;
    }
  }

  /** In every interleaving the counters are exact in the state reached. */
  lemma {:induction false} RunKeeps(s: State, run: seq<Event>, good: Check -> bool)
    requires Inv(s, good) && IsRun(s, run, good)
    ensures Inv(Last(s, run), good)
  {
    if run != [] {
      hide Inv;
      var before := run[..|run| - 1];
      RunKeeps(s, before, good);
      StepKeeps(Last(s, before), run[|run| - 1].step, good);
    }
  }

  lemma CleanUpRound(s: State, t: nat)
    requires t < |s.threads|
    ensures CleanUp(s, t).round == s.round && |CleanUp(s, t).threads| == |s.threads|
  {
  }

  /** Whenever `Wait` returns, it returns whether all checks of the round are good; the next round starts
      with none pending and nothing remembered. */
  lemma WaitVerdict(s: State, r: State, good: Check -> bool)
    requires Inv(s, good) && Next(s, Acquire(0), r, good)
    ensures |r.threads| == |s.threads|
    ensures r.threads[0].Outside? ==> r.verdict == !AnyBad(s.round, good)
    ensures r.threads[0].Outside? ==> r.round == multiset{} && r.allOk && r.nTodo == 0
    ensures r.threads[0].Outside? ==> forall i | 0 <= i < |r.threads| :: !r.threads[i].Holding?
  {
    hide CountsOk, FlagOk, ThreadsOk, MasterOk, BatchOf;
    CleanUpKeeps(s, 0, good);
    var c := CleanUp(s, 0);
    CleanUpRound(s, 0);
    hide CleanUp;
    if r.threads[0].Outside? {
      ReturnKeeps(c, good);
      forall i | 0 <= i < |r.threads| ensures !r.threads[i].Holding? {
        NotHolding(r, i, good);
      }
    }
  }

  lemma NotHolding(r: State, i: nat, good: Check -> bool)
    requires Inv(r, good) && r.nTodo == 0 && i < |r.threads|
    ensures !r.threads[i].Holding?
  {
    SumAtLeast(r.threads, i, Size);
    assert ThreadOk(r.threads[i], r.round, good);
  }

  // ------------------------------------------------------------------ nothing gets stuck

  /** Work left: three units for a queued check, two for one taken, one for one that has been run. */
  function Units(t: Thread): nat { if t.Holding? && t.run <= |t.batch| then 2 * |t.batch| - t.run else 0 }

  ghost function Work(s: State): nat { 3 * |s.queue| + Sum(s.threads, Units) }

  /** The master is in `Wait`. */
  ghost predicate MasterWaits(s: State) { |s.threads| > 0 && !s.threads[0].Outside? && !s.threads[0].Notifying? }

  /** Steps that get work done: running a check, coming back with a batch, taking one. */
  predicate Productive(s: State, step: Step)
    requires Enabled(s, step)
  {
    step.RunCheck? || (step.Acquire? && (s.threads[step.thread].Holding? || s.queue != []))
  }

  /** No step but an `Add` makes work; a productive step gets some done. */
  lemma WorkShrinks(s: State, step: Step, good: Check -> bool)
    requires Inv(s, good) && Enabled(s, step) && !step.AddChecks?
    ensures step.Acquire? ==> CleanUp(s, step.thread).nTotal + CleanUp(s, step.thread).nIdle + 1 > 0
    ensures Work(Apply(s, step, good)) <= Work(s)
    ensures Productive(s, step) ==> Work(Apply(s, step, good)) < Work(s)
  {
    hide CountsOk, FlagOk, ThreadOk, ThreadsOk, MasterOk, CleanUp, Proceed, Sum;
    CanApply(s, step, good);
    match step
    case Notify(w) =>
      var woken := Apply(s, step, good).threads;
      SameUnits(s.threads, woken);
    case CallWait => SumUpdate(s.threads, 0, Entering, Units);
    case Acquire(t) => AcquireShrinks(s, t, good);
    case RunCheck(t) =>
      SumUpdate(s.threads, t, Apply(s, step, good).threads[t], Units);
    case Spurious(t) => SumUpdate(s.threads, t, Woken, Units);
  }

  lemma {:induction false} SameUnits(a: seq<Thread>, b: seq<Thread>)
    requires |a| == |b| && forall i | 0 <= i < |a| :: Units(a[i]) == Units(b[i])
    ensures Sum(a, Units) == Sum(b, Units)
  {
    if a != [] {
      var last := |a| - 1;
      assert forall i | 0 <= i < last :: a[..last][i] == a[i] && b[..last][i] == b[i];
      SameUnits(a[..last], b[..last]);
    }
  }

  lemma AcquireShrinks(s: State, t: nat, good: Check -> bool)
    requires Inv(s, good) && Enabled(s, Acquire(t)) && CleanUp(s, t).nTotal + CleanUp(s, t).nIdle + 1 > 0
    ensures Work(Apply(s, Acquire(t), good)) <= Work(s)
    ensures s.threads[t].Holding? || s.queue != [] ==> Work(Apply(s, Acquire(t), good)) < Work(s)
  {
    assert ThreadOk(s.threads[t], s.round, good);
    hide CountsOk, FlagOk, ThreadsOk, MasterOk, CleanUp, Proceed;
    CleanUpWork(s, t);
    ProceedWork(CleanUp(s, t), t);
  }

  lemma CleanUpWork(s: State, t: nat)
    requires t < |s.threads| && CanAcquire(s.threads[t])
    ensures var c := CleanUp(s, t);
            && c.queue == s.queue && |c.threads| == |s.threads| && c.threads[t].Inside?
            && Work(c) == Work(s) - Units(s.threads[t])
  {
    hide Sum;
    var a := Account(s, t);
    assert a.threads == s.threads[t := Inside] && a.queue == s.queue;
    SumUpdate(s.threads, t, Inside, Units);
    hide Account;
    SumUpdate(a.threads, 0, Wake(a.threads[0]), Units);
  }

  lemma ProceedWork(c: State, t: nat)
    requires t < |c.threads| && c.threads[t].Inside? && c.nTotal + c.nIdle + 1 > 0
    ensures Work(Proceed(c, t)) <= Work(c)
    ensures c.queue != [] ==> Work(Proceed(c, t)) < Work(c)
  {
    hide Sum, BatchOf;
    var p := Proceed(c, t);
    SumUpdate(c.threads, t, p.threads[t], Units);
  }

  /** No wake-up is lost: while the master is in `Wait` some productive step is possible, or the master's
      own next step returns. */
  lemma NeverStuck(s: State, good: Check -> bool) returns (step: Step)
    requires Inv(s, good) && MasterWaits(s) && !s.threads[0].Inside?
    ensures Enabled(s, step)
    ensures Productive(s, step) || (step == Acquire(0) && s.queue == [] && s.nTodo == 0)
    ensures step.Acquire? || step.RunCheck?
  {
    if s.queue == [] && s.nTodo > 0 {
      var i := SumPositive(s.threads, Size);
      step := if s.threads[i].run < |s.threads[i].batch| then RunCheck(i) else Acquire(i);
      assert ThreadOk(s.threads[i], s.round, good);
    } else {
      NothingNegative(s);
      assert ThreadOk(s.threads[0], s.round, good);
      step := if s.threads[0].Holding? && s.threads[0].run < |s.threads[0].batch| then RunCheck(0) else Acquire(0);
    }
  }

  /** While the master sleeps un-notified, the queue is empty and some worker is busy. */
  lemma SleepingMaster(s: State, good: Check -> bool) returns (worker: nat)
    requires Inv(s, good) && s.threads[0].Waiting?
    ensures s.queue == [] && 0 < worker < |s.threads| && s.threads[worker].Holding?
  {
    worker := SumPositive(s.threads, Size);
  }

  /** The number of productive steps of a run. */
  ghost function CountProductive(s: State, run: seq<Event>, good: Check -> bool): nat
    requires Inv(s, good) && IsRun(s, run, good)
  {
    if run == [] then 0
    else
      var before := run[..|run| - 1];
      RunKeeps(s, before, good);
      CountProductive(s, before, good) + if Productive(Last(s, before), run[|run| - 1].step) then 1 else 0
  }

  /** Each productive step of a run without `Add` is paid for by the work left. */
  lemma {:induction false} ProductiveBound(s: State, run: seq<Event>, good: Check -> bool)
    requires Inv(s, good) && IsRun(s, run, good)
    requires forall e | e in run :: !e.step.AddChecks?
    ensures CountProductive(s, run, good) + Work(Last(s, run)) <= Work(s)
  {
    if run != [] {
      var before, e := run[..|run| - 1], run[|run| - 1];
      assert e in run;
      RunKeeps(s, before, good);
      WorkShrinks(Last(s, before), e.step, good);
      hide Inv, Work, Productive;
      forall e | e in before ensures e in run { }
      ProductiveBound(s, before, good);
    }
  }

  /** Between steps nobody has the mutex. */
  ghost predicate NobodyInside(s: State) { forall i | 0 <= i < |s.threads| :: !s.threads[i].Inside? }

  lemma ProceedReleases(c: State, t: nat)
    requires t < |c.threads| && c.nTotal + c.nIdle + 1 > 0
    ensures var r := Proceed(c, t); |r.threads| == |c.threads| && !r.threads[t].Inside?
    ensures forall i | 0 <= i < |c.threads| && i != t :: Proceed(c, t).threads[i] == c.threads[i]
  {
    hide BatchOf;
  }

  lemma MutexReleased(s: State, step: Step, good: Check -> bool)
    requires NobodyInside(s) && Enabled(s, step)
    requires step.Acquire? ==> var c := CleanUp(s, step.thread); c.nTotal + c.nIdle + 1 > 0
    ensures NobodyInside(Apply(s, step, good))
  {
    hide Proceed;
    if step.Acquire? {
      var c := CleanUp(s, step.thread);
      ProceedReleases(c, step.thread);
      assert forall i | 0 <= i < |c.threads| && i != step.thread :: !c.threads[i].Inside?;
    }
  }
}
