/**
 The runner as an object updated in place. Each method is one atomic action of a thread
 and is proved to be the corresponding step of the pool; `RunTests` interleaves them in an
 order chosen by its caller.
 */
module TestRunner {
  import opened Options
  import opened Sums
  import opened WorkerPool
  import opened WorkerPoolSafety
  import opened WorkerPoolLiveness
  import opened WorkerPoolOutcome

  class Runner {
    const c: Config

    var main: Main
    var inputQueue: seq<Job>
    var outputQueue: seq<Job>
    var threads: seq<Worker>
    var threadExit: bool

    var results: seq<Job>
    var passedTests: nat
    var failedTests: nat
    var crashedTests: nat
    var valgrindErrors: nat
    var skippedTests: nat
    var failedNames: seq<string>
    var crashedNames: seq<string>
    var valgrindNames: seq<string>
    var skippedNames: seq<string>

    function Counters(): Tally
      reads this
    {
      Tally(passedTests, failedTests, crashedTests, valgrindErrors, skippedTests,
            failedNames, crashedNames, valgrindNames, skippedNames)
    }

    function View(): State
      reads this
    {
      State(main, inputQueue, threads, outputQueue, results, Counters(), threadExit)
    }

    constructor (c: Config)
      ensures this.c == c && View() == Init()
    {
      this.c := c;
      main, inputQueue, outputQueue, threads, threadExit := Spawning, [], [], [], false;
      results := [];
      passedTests, failedTests, crashedTests, valgrindErrors, skippedTests := 0, 0, 0, 0, 0;
      failedNames, crashedNames, valgrindNames, skippedNames := [], [], [], [];
    }

    /** The handler of the interrupt signal. */
    method SigintHook()
      modifies this`threadExit
      ensures View() == old(View()).(threadExit := true)
    {
      threadExit := true;
    }

    /** One action of worker thread `i`. */
    method WorkerAction(i: nat)
      requires WorkerEnabled(View(), i)
      modifies this`inputQueue, this`outputQueue, this`threads
      ensures View() == WorkerStep(c, old(View()), i)
    {
      match threads[i]
      case Idle =>
        var job := inputQueue[0];
        inputQueue := inputQueue[1..];
        threads := threads[i := Holding(job)];
      case Holding(job) =>
        if job.isBreak {
          threads := threads[i := Exited];
        } else if threadExit {
          threads := threads[i := Reporting(job.(isBreak := true))];
        } else if job.isSkip {
          threads := threads[i := Reporting(job)];
        } else {
          threads := threads[i := Running(job)];
        }
      case Running(job) =>
        threads := threads[i := Reporting(job.(returncode := ExitCode(c, job)))];
      case Reporting(job) =>
        outputQueue := outputQueue + [job];
        threads := threads[i := Idle];
    }

    /** Counts one result. */
    method Count(job: Job)
      modifies this`passedTests, this`failedTests, this`crashedTests, this`valgrindErrors, this`skippedTests
      modifies this`failedNames, this`crashedNames, this`valgrindNames, this`skippedNames
      ensures Counters() == Classify(old(Counters()), job)
    {
      if job.isBreak {
        return;
      }
      if job.isSkip {
        skippedTests := skippedTests + 1;
        skippedNames := skippedNames + [job.displayName + " (" + job.skipReason + ")"];
      } else if job.returncode == 0 {
        passedTests := passedTests + 1;
      } else if job.returncode == 1 {
        failedTests := failedTests + 1;
        failedNames := failedNames + [job.displayName];
      } else if job.returncode == 2 {
        valgrindErrors := valgrindErrors + 1;
        valgrindNames := valgrindNames + [job.displayName];
      } else {
        crashedTests := crashedTests + 1;
        crashedNames := crashedNames + [job.displayName];
      }
    }

    /** Takes one result off the output FIFO and counts it. */
    method CollectOne()
      requires main.Collecting? && |results| < |c.tests| && outputQueue != []
      modifies this`outputQueue, this`results
      modifies this`passedTests, this`failedTests, this`crashedTests, this`valgrindErrors, this`skippedTests
      modifies this`failedNames, this`crashedNames, this`valgrindNames, this`skippedNames
      ensures View() == MainStep(c, old(View()))
    {
      var job := outputQueue[0];
      outputQueue := outputQueue[1..];
      results := results + [job];
      Count(job);
    }

    /** One action of the main thread. */
    method MainAction()
      requires MainEnabled(c, View())
      modifies this
      ensures View() == MainStep(c, old(View()))
    {
      match main
      case Spawning =>
        if |threads| < c.PoolSize() {
          threads := threads + [Idle];
        } else {
          main := Dispatching(0);
        }
      case Dispatching(k) =>
        if k < |c.tests| {
          inputQueue := inputQueue + [FreshJob(c, k)];
          main := Dispatching(k + 1);
        } else {
          main := Breaking(0);
        }
      case Breaking(k) =>
        if k < c.PoolSize() {
          inputQueue := inputQueue + [BreakToken(c, k)];
          main := Breaking(k + 1);
        } else {
          main := Collecting;
        }
      case Collecting =>
        if |results| < |c.tests| {
          CollectOne();
        } else {
          main := Joining(0);
        }
      case Joining(k) =>
        if k < |threads| {
          main := Joining(k + 1);
        } else {
          main := Returned(if passedTests + skippedTests == |c.tests| then 0 else 1);
        }
    }

    /** Finds a thread that can act. */
    method FindActor() returns (a: Actor)
      requires Inv(c, View()) && Served(c) && !main.Returned?
      ensures a != Signal && Enabled(c, View(), a)
    {
      if MainEnabled(c, View()) {
        return MainThread;
      }
      ghost var someone := SomeoneCanStep(c, View());
      var i := 0;
      while !WorkerEnabled(View(), i)
        invariant someone.WorkerThread? && WorkerEnabled(View(), someone.i)
        invariant i <= someone.i
        decreases someone.i - i
      {
        i := i + 1;
      }
      a := WorkerThread(i);
    }

    method Act(a: Actor)
      requires Enabled(c, View(), a)
      modifies this
      ensures View() == Step(c, old(View()), a)
    {
      match a
      case MainThread => MainAction();
      case WorkerThread(i) => WorkerAction(i);
      case Signal => SigintHook();
    }

    /**
     Runs to the end, letting `choose` name the actor of each step; a choice that cannot
     act is replaced by one that can. Every completed run is one of the pool's runs.
     */
    method RunTests(choose: nat -> Actor) returns (code: int, ghost schedule: seq<Actor>)
      requires View() == Init() && Served(c)
      modifies this
      ensures Completes(c, schedule, View())
      ensures |schedule| <= RunLength(c) + 1
      ensures code == (if Sum(results, IsToken) == 0 && TestsGood(c) then 0 else 1)
      ensures Signal !in schedule ==> Reports(Counters(), c.tests) && |schedule| == RunLength(c)
    {
      schedule := [];
      var t := 0;
      while !main.Returned?
        invariant After(c, schedule) == Some(View())
        decreases Measure(c, View())
      {
        ReachableInv(c, schedule);
        var a := choose(t);
        if !Enabled(c, View(), a) {
          a := FindActor();
        }
        StepMeasure(c, View(), a);
        ExtendRun(c, schedule, View(), a);
        schedule := schedule + [a];
        Act(a);
        t := t + 1;
      }
      RunsAreBounded(c, schedule);
      Verdict(c, schedule, View());
      if Signal !in schedule {
        OutcomeIsDetermined(c, schedule, View());
        NoSignal(c, schedule);
      }
      code := main.code;
    }
  }
}
