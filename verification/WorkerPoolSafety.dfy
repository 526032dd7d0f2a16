/**
 What every step of the pool keeps: each job is in exactly one place, jobs are altered
 only by the worker holding them, and break tokens stay behind the real jobs.
 */
module WorkerPoolSafety {
  import opened Sums
  import opened WorkerPool

  // ----- weights

  function JobIs(id: nat): Job -> nat {
    (j: Job) => if j.id == id then 1 else 0
  }

  function Holds(id: nat): Worker -> nat {
    (w: Worker) => if (w.Holding? || w.Running? || w.Reporting?) && w.job.id == id then 1 else 0
  }

  function IsToken(j: Job): nat {
    if j.isBreak then 1 else 0
  }

  /** A worker that has taken a break token. */
  function IsStopped(w: Worker): nat {
    if w.Exited? || (w.Holding? && w.job.isBreak) then 1 else 0
  }

  function Undispatched(main: Main, id: nat): nat {
    if main.Spawning? || (main.Dispatching? && main.next <= id) then 1 else 0
  }

  function TokensSent(c: Config, main: Main): nat {
    match main
    case Spawning => 0
    case Dispatching(_) => 0
    case Breaking(k) => k
    case _ => c.PoolSize()
  }

  /** The number of places in which a job is to be found. */
  function Places(s: State, id: nat): nat {
    Undispatched(s.main, id) + Sum(s.input, JobIs(id)) + Sum(s.workers, Holds(id))
    + Sum(s.output, JobIs(id)) + Sum(s.collected, JobIs(id))
  }

  // ----- the invariant

  /** The job as its worker reports it when the run was not interrupted. */
  function Finished(c: Config, id: nat): Job
    requires id < |c.tests|
  {
    var j := FreshJob(c, id);
    if j.isSkip then j else j.(returncode := c.tests[id].exitCode)
  }

  /** The job as its worker hands it back after an interrupt. */
  function Interrupted(c: Config, id: nat): Job
    requires id < |c.tests|
  {
    FreshJob(c, id).(isBreak := true)
  }

  ghost predicate IsResult(c: Config, threadExit: bool, j: Job) {
    j.id < |c.tests| && (j == Finished(c, j.id) || (threadExit && j == Interrupted(c, j.id)))
  }

  /** A job on the input side: a break token or an untouched job. */
  ghost predicate IsInput(c: Config, j: Job) {
    if j.isBreak then j.id >= |c.tests| else j.id < |c.tests| && j == FreshJob(c, j.id)
  }

  ghost predicate WorkerOk(c: Config, threadExit: bool, w: Worker) {
    match w
    case Holding(j) => IsInput(c, j)
    case Running(j) => !j.isBreak && !j.isSkip && IsInput(c, j)
    case Reporting(j) => IsResult(c, threadExit, j)
    case _ => true
  }

  ghost predicate JobsOk(c: Config, s: State) {
    && (forall j :: j in s.input ==> IsInput(c, j))
    && (forall w :: w in s.workers ==> WorkerOk(c, s.threadExit, w))
    && (forall j :: j in s.output ==> IsResult(c, s.threadExit, j))
    && (forall j :: j in s.collected ==> IsResult(c, s.threadExit, j))
  }

  /** Break tokens come last, and a worker only stops once no real job is queued. */
  ghost predicate TokensLast(c: Config, s: State) {
    && (forall i, k :: 0 <= i < k < |s.input| && s.input[i].isBreak ==> s.input[k].isBreak)
    && (Sum(s.workers, IsStopped) > 0 ==> forall j :: j in s.input ==> j.isBreak)
    && Sum(s.input, IsToken) + Sum(s.workers, IsStopped) == TokensSent(c, s.main)
  }

  ghost predicate ExactlyOnce(c: Config, s: State) {
    forall id: nat :: id < |c.tests| ==> Places(s, id) == 1
  }

  ghost predicate MainOk(c: Config, s: State) {
    && s.tally == TallyOf(s.collected)
    && |s.collected| <= |c.tests|
    && (if s.main.Spawning? then |s.workers| <= c.PoolSize() else |s.workers| == c.PoolSize())
    && (s.workers == [] ==> s.output == [] && s.collected == [])
    && match s.main
       case Spawning => s.collected == [] && s.input == []
       case Dispatching(k) => s.collected == [] && k <= |c.tests|
       case Breaking(k) => s.collected == [] && k <= c.PoolSize()
       case Collecting => true
       case Joining(k) =>
         |s.collected| == |c.tests| && k <= |s.workers| && forall i :: 0 <= i < k ==> s.workers[i].Exited?
       case Returned(code) =>
         && |s.collected| == |c.tests| && code == ExitStatus(c, s.tally)
         && forall i :: 0 <= i < |s.workers| ==> s.workers[i].Exited?
  }

  ghost predicate Inv(c: Config, s: State) {
    MainOk(c, s) && JobsOk(c, s) && TokensLast(c, s) && ExactlyOnce(c, s)
  }

  // ----- preservation

  lemma InitInv(c: Config)
    ensures Inv(c, Init())
  {
  }

  lemma MainStepMainOk(c: Config, s: State)
    requires MainOk(c, s) && MainEnabled(c, s)
    ensures MainOk(c, MainStep(c, s))
  {
    var s' := MainStep(c, s);
    if s.main.Collecting? && |s.collected| < |c.tests| {
      assert s'.collected[..|s'.collected| - 1] == s.collected;
    }
  }

  lemma MainStepJobsOk(c: Config, s: State)
    requires MainOk(c, s) && JobsOk(c, s) && MainEnabled(c, s)
    ensures JobsOk(c, MainStep(c, s))
  {
  }

  lemma MainStepTokensLast(c: Config, s: State)
    requires MainOk(c, s) && JobsOk(c, s) && TokensLast(c, s) && MainEnabled(c, s)
    ensures TokensLast(c, MainStep(c, s))
  {
    match s.main
    case Spawning => SumAppend(s.workers, Idle, IsStopped);
    case Dispatching(k) =>
      if k < |c.tests| {
        DispatchTokensLast(c, s);
      }
    case Breaking(k) =>
      if k < c.PoolSize() {
        BreakTokensLast(c, s);
      }
    case _ =>
  }

  /** While jobs are dispatched no token is about. */
  lemma DispatchTokensLast(c: Config, s: State)
    requires TokensLast(c, s) && s.main.Dispatching? && s.main.next < |c.tests|
    ensures TokensLast(c, MainStep(c, s))
  {
    SumAppend(s.input, FreshJob(c, s.main.next), IsToken);
    forall i | 0 <= i < |s.input| ensures !s.input[i].isBreak {
      SumAtLeast(s.input, i, IsToken);
    }
  }

  lemma BreakTokensLast(c: Config, s: State)
    requires TokensLast(c, s) && s.main.Breaking? && s.main.sent < c.PoolSize()
    ensures TokensLast(c, MainStep(c, s))
  {
    SumAppend(s.input, BreakToken(c, s.main.sent), IsToken);
  }

  lemma MainStepExactlyOnce(c: Config, s: State)
    requires MainOk(c, s) && ExactlyOnce(c, s) && MainEnabled(c, s)
    ensures ExactlyOnce(c, MainStep(c, s))
  {
    forall id: nat | id < |c.tests| ensures Places(MainStep(c, s), id) == Places(s, id) {
      MainStepPlaces(c, s, id);
    }
  }

  lemma MainStepPlaces(c: Config, s: State, id: nat)
    requires MainOk(c, s) && MainEnabled(c, s) && id < |c.tests|
    ensures Places(MainStep(c, s), id) == Places(s, id)
  {
    match s.main
    case Spawning => SumAppend(s.workers, Idle, Holds(id));
    case Dispatching(k) => if k < |c.tests| { SumAppend(s.input, FreshJob(c, k), JobIs(id)); }
    case Breaking(k) => SumAppend(s.input, BreakToken(c, k), JobIs(id));
    case Collecting => if |s.collected| < |c.tests| { SumAppend(s.collected, s.output[0], JobIs(id)); }
    case _ =>
  }

  lemma WorkerStepMainOk(c: Config, s: State, i: nat)
    requires MainOk(c, s) && WorkerEnabled(s, i)
    requires s.main.Spawning? ==> TokensLast(c, s) && JobsOk(c, s)
    ensures MainOk(c, WorkerStep(c, s, i))
  {
  }

  lemma WorkerStepJobsOk(c: Config, s: State, i: nat)
    requires JobsOk(c, s) && WorkerEnabled(s, i)
    ensures JobsOk(c, WorkerStep(c, s, i))
  {
    var s' := WorkerStep(c, s, i);
    assert s.workers[i] in s.workers;
    forall w | w in s'.workers ensures WorkerOk(c, s'.threadExit, w) {
      var k :| 0 <= k < |s'.workers| && s'.workers[k] == w;
      if k != i {
        assert s.workers[k] in s.workers;
      }
    }
  }

  lemma WorkerStepTokensLast(c: Config, s: State, i: nat)
    requires JobsOk(c, s) && TokensLast(c, s) && WorkerEnabled(s, i)
    ensures TokensLast(c, WorkerStep(c, s, i))
  {
    var s' := WorkerStep(c, s, i);
    SumUpdate(s.workers, i, s'.workers[i], IsStopped);
    assert s.workers[i] in s.workers;
    if s.workers[i].Idle? && s.input[0].isBreak {
      forall j | j in s'.input ensures j.isBreak {
        var k :| 0 <= k < |s'.input| && s'.input[k] == j;
        assert s.input[k + 1] == j;
      }
    }
  }

  lemma WorkerStepExactlyOnce(c: Config, s: State, i: nat)
    requires JobsOk(c, s) && ExactlyOnce(c, s) && WorkerEnabled(s, i)
    ensures ExactlyOnce(c, WorkerStep(c, s, i))
  {
    var s' := WorkerStep(c, s, i);
    assert s.workers[i] in s.workers;
    forall id: nat | id < |c.tests| ensures Places(s', id) == Places(s, id) {
      SumUpdate(s.workers, i, s'.workers[i], Holds(id));
      if s.workers[i].Reporting? {
        SumAppend(s.output, s.workers[i].job, JobIs(id));
      }
    }
  }

  lemma StepInv(c: Config, s: State, a: Actor)
    requires Inv(c, s) && Enabled(c, s, a)
    ensures Inv(c, Step(c, s, a))
  {
    match a
    case MainThread =>
      MainStepMainOk(c, s);
      MainStepJobsOk(c, s);
      MainStepTokensLast(c, s);
      MainStepExactlyOnce(c, s);
    case WorkerThread(i) =>
      WorkerStepMainOk(c, s, i);
      WorkerStepJobsOk(c, s, i);
      WorkerStepTokensLast(c, s, i);
      WorkerStepExactlyOnce(c, s, i);
    case Signal =>
      assert forall id: nat :: Places(s, id) == Places(Step(c, s, a), id);
  }

  /** Main result: the invariant holds after every schedule, with or without a signal. */
  lemma {:induction false} ReachableInv(c: Config, schedule: seq<Actor>)
    requires After(c, schedule).Some?
    ensures Inv(c, After(c, schedule).value)
  {
    if schedule == [] {
      InitInv(c);
    } else {
      var front := schedule[..|schedule| - 1];
      ReachableInv(c, front);
      StepInv(c, After(c, front).value, schedule[|schedule| - 1]);
    }
  }

  // ----- readable consequences

  datatype Place = Waiting | Queued(k: nat) | InHand(i: nat) | Returning(k: nat) | Delivered(k: nat)

  ghost predicate IsAt(s: State, id: nat, p: Place) {
    match p
    case Waiting => Undispatched(s.main, id) == 1
    case Queued(k) => k < |s.input| && s.input[k].id == id
    case InHand(i) => i < |s.workers| && Holds(id)(s.workers[i]) == 1
    case Returning(k) => k < |s.output| && s.output[k].id == id
    case Delivered(k) => k < |s.collected| && s.collected[k].id == id
  }

  /** A job is at some place. */
  lemma Somewhere(c: Config, s: State, id: nat) returns (p: Place)
    requires Places(s, id) >= 1
    ensures IsAt(s, id, p)
  {
    if Undispatched(s.main, id) == 1 {
      p := Waiting;
    } else if Sum(s.input, JobIs(id)) > 0 {
      var k := SumWitness(s.input, JobIs(id));
      p := Queued(k);
    } else if Sum(s.workers, Holds(id)) > 0 {
      var k := SumWitness(s.workers, Holds(id));
      p := InHand(k);
    } else if Sum(s.output, JobIs(id)) > 0 {
      var k := SumWitness(s.output, JobIs(id));
      p := Returning(k);
    } else {
      var k := SumWitness(s.collected, JobIs(id));
      p := Delivered(k);
    }
  }

  /** How much a place contributes to the count of places. */
  lemma PlaceCounts(s: State, id: nat, p: Place)
    requires IsAt(s, id, p)
    ensures match p
            case Waiting => Undispatched(s.main, id) == 1
            case Queued(k) => Sum(s.input, JobIs(id)) >= 1
            case InHand(i) => Sum(s.workers, Holds(id)) >= 1
            case Returning(k) => Sum(s.output, JobIs(id)) >= 1
            case Delivered(k) => Sum(s.collected, JobIs(id)) >= 1
  {
    match p
    case Waiting =>
    case Queued(k) => SumAtLeast(s.input, k, JobIs(id));
    case InHand(i) => SumAtLeast(s.workers, i, Holds(id));
    case Returning(k) => SumAtLeast(s.output, k, JobIs(id));
    case Delivered(k) => SumAtLeast(s.collected, k, JobIs(id));
  }

  lemma PlaceUnique(s: State, id: nat, p: Place, q: Place)
    requires Places(s, id) == 1
    requires IsAt(s, id, p) && IsAt(s, id, q)
    ensures p == q
  {
    PlaceCounts(s, id, p);
    PlaceCounts(s, id, q);
    if p != q {
      match (p, q) {
        case (Queued(i), Queued(k)) => SumAtLeastTwo(s.input, if i < k then i else k, if i < k then k else i, JobIs(id));
        case (InHand(i), InHand(k)) => SumAtLeastTwo(s.workers, if i < k then i else k, if i < k then k else i, Holds(id));
        case (Returning(i), Returning(k)) => SumAtLeastTwo(s.output, if i < k then i else k, if i < k then k else i, JobIs(id));
        case (Delivered(i), Delivered(k)) => SumAtLeastTwo(s.collected, if i < k then i else k, if i < k then k else i, JobIs(id));
        case _ =>
      }
    }
  }

  /**
   Main result: after every schedule each job is at one and only one place: not yet
   dispatched, one slot of the input FIFO, one worker's hand, one slot of the output
   FIFO, or one slot of the collected results.
   */
  lemma JobAtExactlyOnePlace(c: Config, schedule: seq<Actor>, id: nat)
    requires After(c, schedule).Some? && id < |c.tests|
    ensures exists p :: IsAt(After(c, schedule).value, id, p)
    ensures forall p, q :: IsAt(After(c, schedule).value, id, p) && IsAt(After(c, schedule).value, id, q) ==> p == q
  {
    var s := After(c, schedule).value;
    ReachableInv(c, schedule);
    var p := Somewhere(c, s, id);
    forall p, q | IsAt(s, id, p) && IsAt(s, id, q) ensures p == q {
      PlaceUnique(s, id, p, q);
    }
  }

  /** Main result: once a worker has left, every real job has been taken off the input FIFO. */
  lemma NoWorkerLeavesEarly(c: Config, schedule: seq<Actor>, i: nat, id: nat)
    requires After(c, schedule).Some?
    requires i < |After(c, schedule).value.workers| && After(c, schedule).value.workers[i].Exited?
    requires id < |c.tests|
    ensures !IsAt(After(c, schedule).value, id, Waiting)
    ensures forall k: nat :: !IsAt(After(c, schedule).value, id, Queued(k))
  {
    var s := After(c, schedule).value;
    ReachableInv(c, schedule);
    SumAtLeast(s.workers, i, IsStopped);
    forall k: nat ensures !IsAt(s, id, Queued(k)) {
      if k < |s.input| {
        assert s.input[k] in s.input;
      }
    }
  }
}
