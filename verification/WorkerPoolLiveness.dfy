/**
 Termination and deadlock freedom of the pool: a measure falls with every step of every
 thread, and while the main thread has not returned some thread can step, provided there
 is a worker or nothing to do.
 */
module WorkerPoolLiveness {
  import opened Options
  import opened Sequences
  import opened Sums
  import opened WorkerPool
  import opened WorkerPoolSafety

  // ----- the work left

  /** Worker steps a job still needs when it is on the input FIFO. */
  function JobWork(j: Job): nat {
    if j.isBreak then 2 else if j.isSkip then 3 else 4
  }

  function WorkerWork(w: Worker): nat {
    match w
    case Idle => 0
    case Holding(j) => JobWork(j) - 1
    case Running(_) => 2
    case Reporting(_) => 1
    case Exited => 0
  }

  /** Steps a test needs up to its report, its dispatch included. */
  function TestWork(t: Test): nat {
    if t.isSkip then 4 else 5
  }

  function Monus(a: nat, b: nat): nat {
    if a < b then 0 else a - b
  }

  function JoinWork(c: Config, joined: nat): nat {
    Monus(c.PoolSize(), joined) + 1
  }

  function CollectWork(c: Config, collected: nat): nat {
    Monus(|c.tests|, collected) + 1 + JoinWork(c, 0)
  }

  function BreakWork(c: Config, sent: nat): nat {
    3 * Monus(c.PoolSize(), sent) + 1 + CollectWork(c, 0)
  }

  function DispatchWork(c: Config, next: nat): nat {
    (if next <= |c.tests| then Sum(c.tests[next..], TestWork) else 0) + 1 + BreakWork(c, 0)
  }

  function MainWork(c: Config, s: State): nat {
    match s.main
    case Spawning => Monus(c.PoolSize(), |s.workers|) + 1 + DispatchWork(c, 0)
    case Dispatching(k) => DispatchWork(c, k)
    case Breaking(k) => BreakWork(c, k)
    case Collecting => CollectWork(c, |s.collected|)
    case Joining(k) => JoinWork(c, k)
    case Returned(_) => 0
  }

  function Measure(c: Config, s: State): nat {
    MainWork(c, s) + Sum(s.input, JobWork) + Sum(s.workers, WorkerWork) + (if s.threadExit then 0 else 1)
  }

  /** The number of steps of a complete run that no signal interrupts. */
  function RunLength(c: Config): nat {
    5 * c.PoolSize() + 5 + |c.tests| + Sum(c.tests, TestWork)
  }

  lemma WorkerStepMeasure(c: Config, s: State, i: nat)
    requires JobsOk(c, s) && WorkerEnabled(s, i)
    ensures Measure(c, WorkerStep(c, s, i)) < Measure(c, s)
    ensures !s.threadExit ==> Measure(c, WorkerStep(c, s, i)) == Measure(c, s) - 1
  {
    assert s.workers[i] in s.workers;
    SumUpdate(s.workers, i, WorkerStep(c, s, i).workers[i], WorkerWork);
  }

  lemma SpawnMeasure(c: Config, s: State)
    requires MainOk(c, s) && s.main.Spawning?
    ensures Measure(c, MainStep(c, s)) == Measure(c, s) - 1
  {
    SumAppend(s.workers, Idle, WorkerWork);
  }

  lemma FeedMeasure(c: Config, s: State)
    requires MainOk(c, s) && (s.main.Dispatching? || s.main.Breaking?)
    ensures Measure(c, MainStep(c, s)) == Measure(c, s) - 1
  {
    var s' := MainStep(c, s);
    if s'.input != s.input {
      var j := s'.input[|s.input|];
      SumAppend(s.input, j, JobWork);
      if s.main.Dispatching? {
        assert c.tests[s.main.next..][1..] == c.tests[s.main.next + 1..];
      }
    }
  }

  lemma DrainMeasure(c: Config, s: State)
    requires MainOk(c, s) && MainEnabled(c, s) && (s.main.Collecting? || s.main.Joining?)
    ensures Measure(c, MainStep(c, s)) == Measure(c, s) - 1
  {
  }

  /** Every step uses up the measure, by exactly one unless a signal has been seen. */
  lemma StepMeasure(c: Config, s: State, a: Actor)
    requires Inv(c, s) && Enabled(c, s, a)
    ensures Measure(c, Step(c, s, a)) < Measure(c, s)
    ensures !Step(c, s, a).threadExit ==> Measure(c, Step(c, s, a)) == Measure(c, s) - 1
  {
    match a
    case Signal =>
    case WorkerThread(i) => WorkerStepMeasure(c, s, i);
    case MainThread =>
      if s.main.Spawning? {
        SpawnMeasure(c, s);
      } else if s.main.Dispatching? || s.main.Breaking? {
        FeedMeasure(c, s);
      } else {
        DrainMeasure(c, s);
      }
  }

  // ----- when all results are in

  /** The number of jobs in a sequence whose identity is below a bound, counted per identity. */
  function CountBelow(jobs: seq<Job>, n: nat): nat {
    if n == 0 then 0 else CountBelow(jobs, n - 1) + Sum(jobs, JobIs(n - 1))
  }

  lemma {:induction false} CountBelowStep(jobs: seq<Job>, n: nat)
    requires jobs != []
    ensures CountBelow(jobs, n) == CountBelow(jobs[1..], n) + (if jobs[0].id < n then 1 else 0)
  {
    if n > 0 {
      CountBelowStep(jobs, n - 1);
    }
  }

  lemma {:induction false} CountBelowAll(jobs: seq<Job>, n: nat)
    requires forall j :: j in jobs ==> j.id < n
    ensures CountBelow(jobs, n) == |jobs|
  {
    if jobs == [] {
      CountBelowNone(n);
    } else {
      CountBelowStep(jobs, n);
      assert jobs[0] in jobs;
      CountBelowAll(jobs[1..], n);
    }
  }

  lemma {:induction false} CountBelowNone(n: nat)
    ensures CountBelow([], n) == 0
  {
    if n > 0 {
      CountBelowNone(n - 1);
    }
  }

  /** Pigeonhole: without duplicates there are at most as many jobs as identities, fewer if one is absent. */
  lemma {:induction false} CountBelowBound(jobs: seq<Job>, n: nat, absent: nat)
    requires forall id: nat :: id < n ==> Sum(jobs, JobIs(id)) <= 1
    ensures CountBelow(jobs, n) <= n
    ensures absent < n && Sum(jobs, JobIs(absent)) == 0 ==> CountBelow(jobs, n) < n
  {
    if n > 0 {
      assert Sum(jobs, JobIs(n - 1)) <= 1;
      CountBelowBound(jobs, n - 1, absent);
    }
  }

  /** With as many results collected as there are tests, each job is among them, once. */
  lemma DeliveredAll(c: Config, s: State, id: nat)
    requires Inv(c, s) && |s.collected| == |c.tests| && id < |c.tests|
    ensures Sum(s.collected, JobIs(id)) == 1
  {
    forall k: nat | k < |c.tests| ensures Sum(s.collected, JobIs(k)) <= 1 {
      assert Places(s, k) == 1;
    }
    CountBelowAll(s.collected, |c.tests|);
    CountBelowBound(s.collected, |c.tests|, id);
  }

  /** With all results collected, a job is nowhere else. */
  lemma OnlyDelivered(c: Config, s: State, id: nat)
    requires Inv(c, s) && |s.collected| == |c.tests| && id < |c.tests|
    ensures Sum(s.input, JobIs(id)) == 0 && Sum(s.workers, Holds(id)) == 0 && Sum(s.output, JobIs(id)) == 0
  {
    DeliveredAll(c, s, id);
    assert Places(s, id) == 1;
  }

  /** With all results collected, no worker has a real job and only tokens are queued. */
  lemma NothingInFlight(c: Config, s: State)
    requires Inv(c, s) && |s.collected| == |c.tests|
    ensures forall j :: j in s.input ==> j.isBreak
    ensures forall w :: w in s.workers ==> w.Idle? || IsStopped(w) == 1
    ensures s.output == []
  {
    forall k: nat | k < |s.input| ensures s.input[k].isBreak {
      assert s.input[k] in s.input;
      if !s.input[k].isBreak {
        SumAtLeast(s.input, k, JobIs(s.input[k].id));
        OnlyDelivered(c, s, s.input[k].id);
      }
    }
    forall k: nat | k < |s.workers| ensures s.workers[k].Idle? || IsStopped(s.workers[k]) == 1 {
      var w := s.workers[k];
      assert w in s.workers;
      if !w.Idle? && IsStopped(w) == 0 {
        SumAtLeast(s.workers, k, Holds(w.job.id));
        OnlyDelivered(c, s, w.job.id);
      }
    }
    if s.output != [] {
      assert s.output[0] in s.output;
      SumAtLeast(s.output, 0, JobIs(s.output[0].id));
      OnlyDelivered(c, s, s.output[0].id);
    }
  }

  lemma {:induction false} AllStopped(workers: seq<Worker>)
    requires forall i :: 0 <= i < |workers| ==> workers[i].Exited?
    ensures Sum(workers, IsStopped) == |workers| && Sum(workers, WorkerWork) == 0
  {
    if workers != [] {
      AllStopped(workers[1..]);
    }
  }

  lemma {:induction false} AllTokens(input: seq<Job>)
    requires forall j :: j in input ==> j.isBreak
    ensures Sum(input, IsToken) == |input|
  {
    if input != [] {
      assert input[0] in input;
      AllTokens(input[1..]);
    }
  }

  /** When the main thread has returned both FIFOs are empty and nothing is left to do. */
  lemma ReturnedIsQuiet(c: Config, s: State)
    requires Inv(c, s) && s.main.Returned?
    ensures s.input == [] && s.output == [] && Sum(s.workers, WorkerWork) == 0
    ensures Stuck(c, s)
  {
    AllStopped(s.workers);
    NothingInFlight(c, s);
    AllTokens(s.input);
  }

  // ----- termination

  lemma {:induction false} RunMeasure(c: Config, schedule: seq<Actor>)
    requires After(c, schedule).Some?
    ensures var s := After(c, schedule).value;
            && |schedule| + Measure(c, s) <= Measure(c, Init())
            && (!s.threadExit ==> |schedule| + Measure(c, s) == Measure(c, Init()))
  {
    if schedule != [] {
      var front := schedule[..|schedule| - 1];
      RunMeasure(c, front);
      ReachableInv(c, front);
      StepMeasure(c, After(c, front).value, schedule[|schedule| - 1]);
    }
  }

  lemma InitMeasure(c: Config)
    ensures Measure(c, Init()) == RunLength(c) + 1
  {
    assert c.tests[0..] == c.tests;
  }

  /**
   Main result: no run, interrupted or not, has more than `RunLength` steps besides the
   signal, and an uninterrupted run that has returned has exactly that many, whatever the
   interleaving.
   */
  lemma RunsAreBounded(c: Config, schedule: seq<Actor>)
    requires After(c, schedule).Some?
    ensures |schedule| <= RunLength(c) + 1
    ensures var s := After(c, schedule).value;
            s.main.Returned? && !s.threadExit ==> |schedule| == RunLength(c)
  {
    RunMeasure(c, schedule);
    InitMeasure(c);
    var s := After(c, schedule).value;
    if s.main.Returned? {
      ReachableInv(c, schedule);
      ReturnedIsQuiet(c, s);
    }
  }

  // ----- deadlock freedom

  /** Either there is somebody to run the jobs or there are none. */
  predicate Served(c: Config) {
    c.processors >= 1 || c.tests == []
  }

  /** While the main thread has not returned, some thread can step. */
  lemma SomeoneCanStep(c: Config, s: State) returns (a: Actor)
    requires Inv(c, s) && Served(c) && !s.main.Returned?
    ensures a != Signal && Enabled(c, s, a)
  {
    if MainEnabled(c, s) {
      a := MainThread;
    } else if s.main.Collecting? {
      a := WorkerForJob(c, s);
    } else {
      a := WorkerForToken(c, s, s.main.joined);
    }
  }

  /** The main thread waits for a result: the worker holding or about to get the job can step. */
  lemma WorkerForJob(c: Config, s: State) returns (a: Actor)
    requires Inv(c, s) && Served(c)
    requires s.main.Collecting? && |s.collected| < |c.tests| && s.output == []
    ensures a.WorkerThread? && WorkerEnabled(s, a.i)
  {
    CountBelowAtMost(s.collected, |c.tests|);
    var id := Uncollected(s.collected, |c.tests|);
    assert Places(s, id) == 1;
    if Sum(s.workers, Holds(id)) > 0 {
      var i := SumWitness(s.workers, Holds(id));
      a := WorkerThread(i);
    } else {
      var k := SumWitness(s.input, JobIs(id));
      assert s.input[k] in s.input;
      a := WorkerThread(0);
      SumAtLeast(s.workers, 0, IsStopped);
    }
  }

  /** Fewer jobs than identities leave an identity out. */
  lemma {:induction false} Uncollected(jobs: seq<Job>, n: nat) returns (id: nat)
    requires CountBelow(jobs, n) < n
    ensures id < n && Sum(jobs, JobIs(id)) == 0
  {
    if Sum(jobs, JobIs(n - 1)) == 0 {
      id := n - 1;
    } else {
      id := Uncollected(jobs, n - 1);
    }
  }

  lemma {:induction false} CountBelowAtMost(jobs: seq<Job>, n: nat)
    ensures CountBelow(jobs, n) <= |jobs|
  {
    if jobs == [] {
      CountBelowNone(n);
    } else {
      CountBelowStep(jobs, n);
      CountBelowAtMost(jobs[1..], n);
    }
  }

  /** The main thread waits to join a worker: that worker, or its token, is on its way. */
  lemma WorkerForToken(c: Config, s: State, i: nat) returns (a: Actor)
    requires Inv(c, s)
    requires s.main.Joining? && s.main.joined == i < |s.workers| && !s.workers[i].Exited?
    ensures a.WorkerThread? && WorkerEnabled(s, a.i)
  {
    NothingInFlight(c, s);
    a := WorkerThread(i);
    if s.workers[i].Idle? && s.input == [] {
      SumBelowLength(s.workers, IsStopped);
    }
  }

  lemma ExtendRun(c: Config, schedule: seq<Actor>, s: State, a: Actor)
    requires After(c, schedule) == Some(s) && Enabled(c, s, a)
    ensures After(c, schedule + [a]) == Some(Step(c, s, a))
  {
    DropAppended(schedule, a);
  }

  /** A run that has not returned can be extended by a thread's step, which uses up the measure. */
  lemma Advance(c: Config, schedule: seq<Actor>, s: State) returns (a: Actor, next: State)
    requires Served(c) && After(c, schedule) == Some(s) && !s.main.Returned?
    ensures a != Signal && After(c, schedule + [a]) == Some(next) && Measure(c, next) < Measure(c, s)
  {
    ReachableInv(c, schedule);
    a := SomeoneCanStep(c, s);
    next := Step(c, s, a);
    StepMeasure(c, s, a);
    ExtendRun(c, schedule, s, a);
  }

  /**
   Main result: from every reachable state the run can be completed without a further
   signal.
   */
  lemma {:induction false} CanFinish(c: Config, schedule: seq<Actor>, s: State) returns (more: seq<Actor>, end: State)
    requires Served(c) && After(c, schedule) == Some(s)
    ensures After(c, schedule + more) == Some(end) && end.main.Returned?
    ensures Signal !in more
    decreases Measure(c, s)
  {
    if s.main.Returned? {
      more, end := [], s;
      assert schedule + more == schedule;
    } else {
      var a, next := Advance(c, schedule, s);
      more, end := CanFinish(c, schedule + [a], next);
      Regroup(schedule, [a], more);
      more := [a] + more;
    }
  }

  /**
   Main result, with its exact condition: the pool never comes to a halt before the main
   thread has returned if and only if there is a worker or there is no test.
   */
  lemma DeadlockFreeIffServed(c: Config)
    ensures Served(c) <==>
            forall schedule :: After(c, schedule).Some? && Stuck(c, After(c, schedule).value) ==>
              After(c, schedule).value.main.Returned?
  {
    if Served(c) {
      forall schedule | After(c, schedule).Some? && Stuck(c, After(c, schedule).value)
        ensures After(c, schedule).value.main.Returned?
      {
        ReachableInv(c, schedule);
        var s := After(c, schedule).value;
        if !s.main.Returned? {
          var a := SomeoneCanStep(c, s);
        }
      }
    } else {
      var schedule, s := RunMainOnly(c, [], Init());
      ReachableInv(c, schedule);
    }
  }

  /** The pool can halt: one test and a negative limit leave the main thread waiting for ever. */
  lemma NegativeLimitDeadlocks() returns (c: Config, schedule: seq<Actor>)
    ensures c.processors < 0 && |c.tests| == 1 && After(c, schedule).Some?
    ensures Stuck(c, After(c, schedule).value) && !After(c, schedule).value.main.Returned?
  {
    c := Config([Test("", false, "", 0)], -1);
    DeadlockFreeIffServed(c);
    schedule :| After(c, schedule).Some? && Stuck(c, After(c, schedule).value) && !After(c, schedule).value.main.Returned?;
  }

  /** With no worker the main thread runs alone until it waits for a result that never comes. */
  lemma {:induction false} RunMainOnly(c: Config, schedule: seq<Actor>, s: State) returns (longer: seq<Actor>, end: State)
    requires c.PoolSize() == 0 && After(c, schedule) == Some(s)
    ensures After(c, longer) == Some(end) && Stuck(c, end)
    decreases Measure(c, s)
  {
    ReachableInv(c, schedule);
    if MainEnabled(c, s) {
      StepMeasure(c, s, MainThread);
      ExtendRun(c, schedule, s, MainThread);
      longer, end := RunMainOnly(c, schedule + [MainThread], Step(c, s, MainThread));
    } else {
      longer, end := schedule, s;
    }
  }
}
