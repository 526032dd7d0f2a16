/**
 The test runner's thread pool as a step relation: the main thread spawns workers,
 feeds jobs and then one break token per worker into a FIFO, collects one result per
 job from a second FIFO, and joins the workers. A step is one atomic action of one
 thread; an interleaving is a schedule of actors.
 */
module WorkerPool {
  import opened Options

  /** A test as the runner knows it before dispatch, with the code its process will return. */
  datatype Test = Test(displayName: string, isSkip: bool, skipReason: string, exitCode: int)

  /** The processor count may be zero or negative: a range over it is then empty. */
  datatype Config = Config(tests: seq<Test>, processors: int) {
    function PoolSize(): nat {
      if processors > 0 then processors else 0
    }
  }

  /** The fields of a job that decide what happens to it; `id` stands for object identity. */
  datatype Job = Job(id: nat, isBreak: bool, isSkip: bool, skipReason: string, displayName: string, returncode: int)

  datatype Worker =
    | Idle                 // blocked in, or about to call, the input FIFO's get
    | Holding(job: Job)    // got a job, has not looked at it yet
    | Running(job: Job)    // waiting for the job's process
    | Reporting(job: Job)  // about to put the job on the output FIFO
    | Exited

  datatype Main =
    | Spawning
    | Dispatching(next: nat)
    | Breaking(sent: nat)
    | Collecting
    | Joining(joined: nat)
    | Returned(code: int)

  datatype Tally = Tally(
    passed: nat, failed: nat, crashed: nat, valgrind: nat, skipped: nat,
    failedNames: seq<string>, crashedNames: seq<string>, valgrindNames: seq<string>, skippedNames: seq<string>)

  const NO_RESULTS := Tally(0, 0, 0, 0, 0, [], [], [], [])

  datatype State = State(
    main: Main, input: seq<Job>, workers: seq<Worker>, output: seq<Job>,
    collected: seq<Job>, tally: Tally, threadExit: bool)

  datatype Actor = MainThread | WorkerThread(i: nat) | Signal

  // ----- jobs

  function FreshJob(c: Config, id: nat): Job
    requires id < |c.tests|
  {
    var t := c.tests[id];
    Job(id, false, t.isSkip, t.skipReason, t.displayName, 0)
  }

  /** A break token; its identity lies past those of the real jobs. */
  function BreakToken(c: Config, k: nat): Job {
    Job(|c.tests| + k, true, false, "", "", 0)
  }

  function ExitCode(c: Config, j: Job): int {
    if j.id < |c.tests| then c.tests[j.id].exitCode else 0
  }

  /** What the main thread does with one result. */
  function Classify(t: Tally, j: Job): Tally {
    if j.isBreak then t
    else if j.isSkip then
      t.(skipped := t.skipped + 1, skippedNames := t.skippedNames + [j.displayName + " (" + j.skipReason + ")"])
    else if j.returncode == 0 then t.(passed := t.passed + 1)
    else if j.returncode == 1 then t.(failed := t.failed + 1, failedNames := t.failedNames + [j.displayName])
    else if j.returncode == 2 then t.(valgrind := t.valgrind + 1, valgrindNames := t.valgrindNames + [j.displayName])
    else t.(crashed := t.crashed + 1, crashedNames := t.crashedNames + [j.displayName])
  }

  function TallyOf(jobs: seq<Job>): Tally {
    if jobs == [] then NO_RESULTS
    else Classify(TallyOf(jobs[..|jobs| - 1]), jobs[|jobs| - 1])
  }

  function ExitStatus(c: Config, t: Tally): int {
    if t.passed + t.skipped == |c.tests| then 0 else 1
  }

  // ----- steps

  function Init(): State {
    State(Spawning, [], [], [], [], NO_RESULTS, false)
  }

  predicate MainEnabled(c: Config, s: State) {
    match s.main
    case Spawning => true
    case Dispatching(_) => true
    case Breaking(_) => true
    case Collecting => |s.collected| < |c.tests| ==> s.output != []
    case Joining(k) => k < |s.workers| ==> s.workers[k].Exited?
    case Returned(_) => false
  }

  function MainStep(c: Config, s: State): State
    requires MainEnabled(c, s)
  {
    match s.main
    case Spawning =>
      if |s.workers| < c.PoolSize() then s.(workers := s.workers + [Idle]) else s.(main := Dispatching(0))
    case Dispatching(k) =>
      if k < |c.tests| then s.(input := s.input + [FreshJob(c, k)], main := Dispatching(k + 1))
      else s.(main := Breaking(0))
    case Breaking(k) =>
      if k < c.PoolSize() then s.(input := s.input + [BreakToken(c, k)], main := Breaking(k + 1))
      else s.(main := Collecting)
    case Collecting =>
      if |s.collected| < |c.tests| then
        s.(output := s.output[1..], collected := s.collected + [s.output[0]], tally := Classify(s.tally, s.output[0]))
      else s.(main := Joining(0))
    case Joining(k) =>
      if k < |s.workers| then s.(main := Joining(k + 1)) else s.(main := Returned(ExitStatus(c, s.tally)))
  }

  predicate WorkerEnabled(s: State, i: nat) {
    i < |s.workers| && !s.workers[i].Exited? && (s.workers[i].Idle? ==> s.input != [])
  }

  function WorkerStep(c: Config, s: State, i: nat): State
    requires WorkerEnabled(s, i)
  {
    match s.workers[i]
    case Idle => s.(input := s.input[1..], workers := s.workers[i := Holding(s.input[0])])
    case Holding(j) => s.(workers := s.workers[i := AfterGet(s.threadExit, j)])
    case Running(j) => s.(workers := s.workers[i := Reporting(j.(returncode := ExitCode(c, j)))])
    case Reporting(j) => s.(output := s.output + [j], workers := s.workers[i := Idle])
  }

  /** A worker's decision about the job it just took off the input FIFO. */
  function AfterGet(threadExit: bool, j: Job): Worker {
    if j.isBreak then Exited
    else if threadExit then Reporting(j.(isBreak := true))
    else if j.isSkip then Reporting(j)
    else Running(j)
  }

  predicate Enabled(c: Config, s: State, a: Actor) {
    match a
    case MainThread => MainEnabled(c, s)
    case WorkerThread(i) => WorkerEnabled(s, i)
    case Signal => !s.threadExit
  }

  function Step(c: Config, s: State, a: Actor): State
    requires Enabled(c, s, a)
  {
    match a
    case MainThread => MainStep(c, s)
    case WorkerThread(i) => WorkerStep(c, s, i)
    case Signal => s.(threadExit := true)
  }

  // ----- runs

  /** The state a schedule leads to, unless it names a thread that cannot step. */
  function After(c: Config, schedule: seq<Actor>): Option<State> {
    if schedule == [] then Some(Init())
    else
      match After(c, schedule[..|schedule| - 1])
      case None => None
      case Some(s) =>
        var a := schedule[|schedule| - 1];
        if Enabled(c, s, a) then Some(Step(c, s, a)) else None
  }

  /** No thread can step any more; a further signal does not count. */
  ghost predicate Stuck(c: Config, s: State) {
    !MainEnabled(c, s) && forall i: nat :: !WorkerEnabled(s, i)
  }
}
