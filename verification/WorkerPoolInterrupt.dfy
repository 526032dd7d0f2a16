/**
 What an interrupt does to the jobs: once the flag is up no further job is started, so the
 jobs that come back with a result are exactly those a worker had decided on before.
 */
module WorkerPoolInterrupt {
  import opened Options
  import opened Sequences
  import opened Sums
  import opened WorkerPool
  import opened WorkerPoolSafety
  import opened WorkerPoolLiveness
  import opened WorkerPoolOutcome

  function ResultOf(id: nat): Job -> nat {
    (j: Job) => if j.id == id && !j.isBreak then 1 else 0
  }

  function Working(id: nat): Worker -> nat {
    (w: Worker) => if (w.Running? || w.Reporting?) && w.job.id == id && !w.job.isBreak then 1 else 0
  }

  /** One if the job has been taken up: its process was started, or it was found to be skipped. */
  function TakenUp(s: State, id: nat): nat {
    Sum(s.workers, Working(id)) + Sum(s.output, ResultOf(id)) + Sum(s.collected, ResultOf(id))
  }

  /** With the flag up, no step takes a job up or lets go of one. */
  lemma StepKeepsTakenUp(c: Config, s: State, a: Actor, id: nat)
    requires Inv(c, s) && s.threadExit && Enabled(c, s, a) && id < |c.tests|
    ensures Step(c, s, a).threadExit && TakenUp(Step(c, s, a), id) == TakenUp(s, id)
  {
    match a
    case Signal =>
    case WorkerThread(i) => WorkerKeepsTakenUp(c, s, i, id);
    case MainThread =>
      if s.main.Spawning? {
        SumAppend(s.workers, Idle, Working(id));
      } else if s.main.Collecting? && |s.collected| < |c.tests| {
        SumAppend(s.collected, s.output[0], ResultOf(id));
      }
  }

  lemma WorkerKeepsTakenUp(c: Config, s: State, i: nat, id: nat)
    requires JobsOk(c, s) && s.threadExit && WorkerEnabled(s, i) && id < |c.tests|
    ensures TakenUp(WorkerStep(c, s, i), id) == TakenUp(s, id)
  {
    assert s.workers[i] in s.workers;
    SumUpdate(s.workers, i, WorkerStep(c, s, i).workers[i], Working(id));
    if s.workers[i].Reporting? {
      SumAppend(s.output, s.workers[i].job, ResultOf(id));
    }
  }

  lemma {:induction false} RunKeepsTakenUp(c: Config, before: seq<Actor>, more: seq<Actor>, s: State, id: nat)
    requires After(c, before) == Some(s) && s.threadExit && id < |c.tests|
    requires After(c, before + more).Some?
    ensures TakenUp(After(c, before + more).value, id) == TakenUp(s, id)
    ensures After(c, before + more).value.threadExit
  {
    if more == [] {
      assert before + more == before;
    } else {
      var front := more[..|more| - 1];
      FrontOfSum(before, more);
      RunKeepsTakenUp(c, before, front, s, id);
      ReachableInv(c, before + front);
      StepKeepsTakenUp(c, After(c, before + front).value, more[|more| - 1], id);
    }
  }

  lemma {:induction false} ExitedAreDone(workers: seq<Worker>, id: nat)
    requires forall i :: 0 <= i < |workers| ==> workers[i].Exited?
    ensures Sum(workers, Working(id)) == 0
  {
    if workers != [] {
      ExitedAreDone(workers[1..], id);
    }
  }

  /**
   Main result: however the run goes on after an interrupt, a job is reported with a result
   if it had been taken up when the flag was seen up, and comes back broken off if not.
   */
  lemma ResultsAfterInterrupt(c: Config, before: seq<Actor>, more: seq<Actor>, s: State, end: State, id: nat)
    requires After(c, before) == Some(s) && s.threadExit && id < |c.tests|
    requires Completes(c, before + more, end)
    ensures TakenUp(s, id) <= 1
    ensures TakenUp(s, id) == 1 ==> Finished(c, id) in end.collected && Interrupted(c, id) !in end.collected
    ensures TakenUp(s, id) == 0 ==> Interrupted(c, id) in end.collected && Finished(c, id) !in end.collected
  {
    RunKeepsTakenUp(c, before, more, s, id);
    ReachableInv(c, before + more);
    ExitedAreDone(end.workers, id);
    NothingInFlight(c, end);
    DeliveredAll(c, end, id);
    assert TakenUp(s, id) == Sum(end.collected, ResultOf(id));
    var k := SumWitness(end.collected, JobIs(id));
    OnlyOne(c, end, id, k);
  }

  /** The one delivered result of a job decides the count. */
  lemma OnlyOne(c: Config, end: State, id: nat, k: nat)
    requires Inv(c, end) && id < |c.tests| && k < |end.collected| && end.collected[k].id == id
    requires Sum(end.collected, JobIs(id)) == 1
    ensures Sum(end.collected, ResultOf(id)) == (if end.collected[k].isBreak then 0 else 1)
    ensures end.collected[k] == if end.collected[k].isBreak then Interrupted(c, id) else Finished(c, id)
    ensures forall j :: j in end.collected && j.id == id ==> j == end.collected[k]
  {
    var jobs := end.collected;
    assert jobs[k] in jobs;
    forall i: nat | i < |jobs| && jobs[i].id == id ensures i == k {
      if i < k {
        SumAtLeastTwo(jobs, i, k, JobIs(id));
      } else if k < i {
        SumAtLeastTwo(jobs, k, i, JobIs(id));
      }
    }
    ResultCount(jobs, id, k);
  }

  lemma {:induction false} ResultCount(jobs: seq<Job>, id: nat, k: nat)
    requires k < |jobs| && forall i :: 0 <= i < |jobs| && jobs[i].id == id ==> i == k
    requires jobs[k].id == id
    ensures Sum(jobs, ResultOf(id)) == (if jobs[k].isBreak then 0 else 1)
  {
    if k == 0 {
      forall j | j in jobs[1..] ensures ResultOf(id)(j) == 0 {
        var i :| 0 <= i < |jobs[1..]| && jobs[1..][i] == j;
        assert jobs[i + 1] == j;
      }
      SumZero(jobs[1..], ResultOf(id));
    } else {
      assert forall i :: 0 <= i < |jobs[1..]| ==> jobs[1..][i] == jobs[i + 1];
      assert jobs[0].id != id;
      ResultCount(jobs[1..], id, k - 1);
    }
  }
}
