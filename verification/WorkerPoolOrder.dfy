/**
 The order in which jobs pass through the two FIFOs, read off the runs by what each step
 puts on a FIFO or takes off it.
 */
module WorkerPoolOrder {
  import opened Sequences
  import opened WorkerPool
  import opened WorkerPoolSafety
  import opened WorkerPoolLiveness

  /** What a step put at the end of a FIFO, if that has grown. */
  function PutBy(before: seq<Job>, after: seq<Job>): seq<Job> {
    if |after| > |before| then [after[|after| - 1]] else []
  }

  /** The jobs put on the input FIFO during a run, in order. */
  function Fed(c: Config, schedule: seq<Actor>): seq<Job>
    requires After(c, schedule).Some?
  {
    if schedule == [] then []
    else
      var front := schedule[..|schedule| - 1];
      Fed(c, front) + PutBy(After(c, front).value.input, After(c, schedule).value.input)
  }

  /** The jobs that workers took off the input FIFO during a run, in order. */
  function TakenUp(c: Config, schedule: seq<Actor>): seq<Job>
    requires After(c, schedule).Some?
  {
    if schedule == [] then []
    else
      var front, a := schedule[..|schedule| - 1], schedule[|schedule| - 1];
      TakenUp(c, front) + HeldNow(After(c, front).value, After(c, schedule).value, a)
  }

  /** The job a worker holds now that it did not hold before. */
  function HeldNow(s: State, s': State, a: Actor): seq<Job> {
    if a.WorkerThread? && a.i < |s.workers| && a.i < |s'.workers| && s.workers[a.i].Idle? && s'.workers[a.i].Holding?
    then [s'.workers[a.i].job] else []
  }

  /** The results put on the output FIFO during a run, in order. */
  function Reported(c: Config, schedule: seq<Actor>): seq<Job>
    requires After(c, schedule).Some?
  {
    if schedule == [] then []
    else
      var front := schedule[..|schedule| - 1];
      Reported(c, front) + PutBy(After(c, front).value.output, After(c, schedule).value.output)
  }

  /** All the main thread feeds: the jobs in the order of the tests, then a token per processor. */
  function Feed(c: Config): seq<Job> {
    seq(|c.tests|, k requires 0 <= k < |c.tests| => FreshJob(c, k))
    + seq(if c.processors > 0 then c.processors else 0, k requires k >= 0 => BreakToken(c, k))
  }

  /** How much of that has been fed, from where the main thread is. */
  function FedBy(c: Config, main: Main): int {
    match main
    case Spawning => 0
    case Dispatching(k) => k
    case Breaking(k) => |c.tests| + k
    case _ => |Feed(c)|
  }

  // ----- the input FIFO

  lemma StepFeeds(c: Config, s: State, a: Actor)
    requires MainOk(c, s) && Enabled(c, s, a)
    ensures var s' := Step(c, s, a);
            && 0 <= FedBy(c, s.main) <= FedBy(c, s'.main) <= |Feed(c)|
            && PutBy(s.input, s'.input) == Feed(c)[FedBy(c, s.main)..FedBy(c, s'.main)]
  {
  }

  lemma StepTakes(c: Config, s: State, a: Actor)
    requires Enabled(c, s, a)
    ensures var s' := Step(c, s, a);
            s.input + PutBy(s.input, s'.input) == HeldNow(s, s', a) + s'.input
  {
  }

  lemma StepReports(c: Config, s: State, a: Actor)
    requires Enabled(c, s, a)
    ensures var s' := Step(c, s, a);
            s.collected + s.output + PutBy(s.output, s'.output) == s'.collected + s'.output
  {
  }

  lemma {:induction false} FedInOrder(c: Config, schedule: seq<Actor>)
    requires After(c, schedule).Some?
    ensures 0 <= FedBy(c, After(c, schedule).value.main) <= |Feed(c)|
    ensures Fed(c, schedule) == Feed(c)[..FedBy(c, After(c, schedule).value.main)]
  {
    if schedule != [] {
      var front, a := schedule[..|schedule| - 1], schedule[|schedule| - 1];
      FedInOrder(c, front);
      ReachableInv(c, front);
      StepFeeds(c, After(c, front).value, a);
    }
  }

  /**
   Main result: the jobs are taken up in the order of the tests, and after them the break
   tokens, one for each processor; whatever was fed has been taken up or is queued.
   */
  lemma {:induction false} TakenInOrder(c: Config, schedule: seq<Actor>)
    requires After(c, schedule).Some?
    ensures TakenUp(c, schedule) + After(c, schedule).value.input == Fed(c, schedule) <= Feed(c)
  {
    FedInOrder(c, schedule);
    if schedule != [] {
      var front, a := schedule[..|schedule| - 1], schedule[|schedule| - 1];
      var s, s' := After(c, front).value, After(c, schedule).value;
      TakenInOrder(c, front);
      StepTakes(c, s, a);
      Regroup(TakenUp(c, front), s.input, PutBy(s.input, s'.input));
      Regroup(TakenUp(c, front), HeldNow(s, s', a), s'.input);
    }
  }

  /** Main result: results are collected in the order in which they were reported. */
  lemma {:induction false} CollectedInOrder(c: Config, schedule: seq<Actor>)
    requires After(c, schedule).Some?
    ensures After(c, schedule).value.collected + After(c, schedule).value.output == Reported(c, schedule)
  {
    if schedule != [] {
      var front, a := schedule[..|schedule| - 1], schedule[|schedule| - 1];
      CollectedInOrder(c, front);
      StepReports(c, After(c, front).value, a);
    }
  }

  /**
   Main result: past spawning there is a worker for each processor, and in a completed run
   every job and as many break tokens have been taken up, in order, and each worker has left.
   */
  lemma PoolAsConfigured(c: Config, schedule: seq<Actor>)
    requires After(c, schedule).Some?
    ensures var s := After(c, schedule).value;
            && (!s.main.Spawning? ==> |s.workers| == if c.processors > 0 then c.processors else 0)
            && (s.main.Returned? ==> TakenUp(c, schedule) == Feed(c) && forall w :: w in s.workers ==> w.Exited?)
  {
    var s := After(c, schedule).value;
    ReachableInv(c, schedule);
    if s.main.Returned? {
      FedInOrder(c, schedule);
      TakenInOrder(c, schedule);
      ReturnedIsQuiet(c, s);
      assert Feed(c)[..|Feed(c)|] == Feed(c) && TakenUp(c, schedule) + [] == TakenUp(c, schedule);
    }
  }
}
