/**
 What a completed run reports: without an interrupt a function of the tests alone, and
 with one a verdict that is a success exactly when nothing failed and nothing was broken off.
 */
module WorkerPoolOutcome {
  import opened Options
  import opened Sequences
  import opened Sums
  import opened NameLists
  import opened Permutations
  import opened WorkerPool
  import opened WorkerPoolSafety
  import opened WorkerPoolLiveness

  datatype Status = Pass | Fail | Crash | Valgrind | Skip | Broken

  // ----- the reference: what each test deserves

  function StatusOfTest(t: Test): Status {
    if t.isSkip then Skip
    else if t.exitCode == 0 then Pass
    else if t.exitCode == 1 then Fail
    else if t.exitCode == 2 then Valgrind
    else Crash
  }

  /** The names listed for the tests of one status, in the order of the tests. */
  function TestNames(tests: seq<Test>, k: Status): seq<string> {
    if tests == [] then []
    else TestNames(tests[..|tests| - 1], k) + TestName(tests[|tests| - 1], k)
  }

  function TestName(t: Test, k: Status): seq<string> {
    if StatusOfTest(t) != k then []
    else if t.isSkip then [t.displayName + " (" + t.skipReason + ")"] else [t.displayName]
  }

  // ----- the names behind a tally

  function StatusOfJob(j: Job): Status {
    if j.isBreak then Broken
    else if j.isSkip then Skip
    else if j.returncode == 0 then Pass
    else if j.returncode == 1 then Fail
    else if j.returncode == 2 then Valgrind
    else Crash
  }

  function Label(k: Status): Job -> seq<string> {
    (j: Job) =>
      if StatusOfJob(j) != k then []
      else if j.isSkip then [j.displayName + " (" + j.skipReason + ")"] else [j.displayName]
  }

  function NamesOf(jobs: seq<Job>, k: Status): seq<string> {
    Gather(jobs, Label(k))
  }

  /** The counters count, and the lists list, the jobs of their status. */
  lemma {:induction false} TallyNames(jobs: seq<Job>)
    ensures var t := TallyOf(jobs);
            && t.passed == |NamesOf(jobs, Pass)| && t.failed == |NamesOf(jobs, Fail)|
            && t.crashed == |NamesOf(jobs, Crash)| && t.valgrind == |NamesOf(jobs, Valgrind)|
            && t.skipped == |NamesOf(jobs, Skip)|
            && t.failedNames == NamesOf(jobs, Fail) && t.crashedNames == NamesOf(jobs, Crash)
            && t.valgrindNames == NamesOf(jobs, Valgrind) && t.skippedNames == NamesOf(jobs, Skip)
    ensures forall k :: k != Broken ==> |NamesOf(jobs, k)| <= |jobs|
  {
    if jobs != [] {
      TallyNames(jobs[..|jobs| - 1]);
    }
  }

  // ----- the results of a completed run, in the order of the tests

  ghost predicate OncePerIdentity(jobs: seq<Job>, n: nat) {
    && |jobs| == n
    && (forall j :: j in jobs ==> j.id < n)
    && (forall id: nat :: id < n ==> Sum(jobs, JobIs(id)) == 1)
  }

  lemma OncePerIdentityWithout(jobs: seq<Job>, n: nat, k: nat)
    requires n > 0 && OncePerIdentity(jobs, n) && k < |jobs| && jobs[k].id == n - 1
    ensures OncePerIdentity(Without(jobs, k), n - 1)
  {
    var rest := Without(jobs, k);
    assert jobs == jobs[..k] + ([jobs[k]] + jobs[k + 1..]);
    forall id: nat ensures Sum(rest, JobIs(id)) == Sum(jobs, JobIs(id)) - JobIs(id)(jobs[k]) {
      SumConcat(jobs[..k], [jobs[k]] + jobs[k + 1..], JobIs(id));
      SumConcat(jobs[..k], jobs[k + 1..], JobIs(id));
    }
    forall i: nat | i < |rest| ensures rest[i].id < n - 1 {
      assert rest[i] in jobs;
      SumAtLeast(rest, i, JobIs(n - 1));
      assert Sum(jobs, JobIs(n - 1)) == 1;
    }
  }

  /** Results that mention every identity once can be put in the order of the identities. */
  lemma {:induction false} ByIdentity(jobs: seq<Job>, n: nat) returns (r: seq<Job>)
    requires OncePerIdentity(jobs, n)
    ensures |r| == n && multiset(r) == multiset(jobs)
    ensures forall id :: 0 <= id < n ==> r[id].id == id
  {
    if n == 0 {
      r := [];
    } else {
      var k := SumWitness(jobs, JobIs(n - 1));
      var rest := Without(jobs, k);
      OncePerIdentityWithout(jobs, n, k);
      var r' := ByIdentity(rest, n - 1);
      r := r' + [jobs[k]];
      AppendLast(jobs, k, r');
    }
  }

  lemma AppendLast(jobs: seq<Job>, k: nat, r: seq<Job>)
    requires k < |jobs| && multiset(r) == multiset(Without(jobs, k))
    ensures multiset(r + [jobs[k]]) == multiset(jobs)
  {
    RemoveOne(jobs, k);
    assert jobs[k] in multiset(jobs);
  }

  /** The collected results of a completed run: one per test, finished or broken off. */
  lemma ResultsInOrder(c: Config, s: State) returns (r: seq<Job>)
    requires Inv(c, s) && |s.collected| == |c.tests|
    ensures |r| == |c.tests| && multiset(r) == multiset(s.collected)
    ensures forall id :: 0 <= id < |r| ==>
              r[id] == Finished(c, id) || (s.threadExit && r[id] == Interrupted(c, id))
  {
    forall id: nat | id < |c.tests| ensures Sum(s.collected, JobIs(id)) == 1 {
      DeliveredAll(c, s, id);
    }
    r := ByIdentity(s.collected, |c.tests|);
    forall id | 0 <= id < |r|
      ensures r[id] == Finished(c, id) || (s.threadExit && r[id] == Interrupted(c, id))
    {
      assert r[id] in multiset(s.collected);
      assert r[id] in s.collected;
    }
  }

  lemma LabelOfFinished(c: Config, id: nat, k: Status)
    requires id < |c.tests| && k != Broken
    ensures Label(k)(Finished(c, id)) == TestName(c.tests[id], k)
  {
  }

  lemma {:induction false} NamesOfFinished(c: Config, r: seq<Job>, n: nat, k: Status)
    requires n <= |c.tests| && |r| == n && k != Broken
    requires forall id :: 0 <= id < n ==> r[id] == Finished(c, id)
    ensures NamesOf(r, k) == TestNames(c.tests[..n], k)
  {
    if n > 0 {
      NamesOfFinished(c, r[..n - 1], n - 1, k);
      LabelOfFinished(c, n - 1, k);
      assert c.tests[..n][..n - 1] == c.tests[..n - 1];
    }
  }

  lemma {:induction false} NoSignal(c: Config, schedule: seq<Actor>)
    requires After(c, schedule).Some? && Signal !in schedule
    ensures !After(c, schedule).value.threadExit
  {
    if schedule != [] {
      NoSignal(c, schedule[..|schedule| - 1]);
    }
  }

  /** The counts and the sorted lists of names are those of the tests. */
  ghost predicate Reports(t: Tally, tests: seq<Test>) {
    && t.passed == |TestNames(tests, Pass)|
    && t.failed == |TestNames(tests, Fail)| && Sort(t.failedNames) == Sort(TestNames(tests, Fail))
    && t.crashed == |TestNames(tests, Crash)| && Sort(t.crashedNames) == Sort(TestNames(tests, Crash))
    && t.valgrind == |TestNames(tests, Valgrind)| && Sort(t.valgrindNames) == Sort(TestNames(tests, Valgrind))
    && t.skipped == |TestNames(tests, Skip)| && Sort(t.skippedNames) == Sort(TestNames(tests, Skip))
  }

  lemma NamesAreDetermined(c: Config, s: State, r: seq<Job>, k: Status)
    requires |r| == |c.tests| && multiset(r) == multiset(s.collected) && k != Broken
    requires forall id :: 0 <= id < |r| ==> r[id] == Finished(c, id)
    ensures |NamesOf(s.collected, k)| == |TestNames(c.tests, k)|
    ensures Sort(NamesOf(s.collected, k)) == Sort(TestNames(c.tests, k))
  {
    GatherOfPermutation(r, s.collected, Label(k));
    NamesOfFinished(c, r, |c.tests|, k);
    assert c.tests[..|c.tests|] == c.tests;
    SortOfPermutation(NamesOf(s.collected, k), TestNames(c.tests, k));
    assert |multiset(NamesOf(s.collected, k))| == |multiset(TestNames(c.tests, k))|;
  }

  lemma CompletedReports(c: Config, s: State)
    requires Inv(c, s) && |s.collected| == |c.tests| && !s.threadExit
    ensures Reports(s.tally, c.tests)
  {
    var r := ResultsInOrder(c, s);
    TallyNames(s.collected);
    NamesAreDetermined(c, s, r, Pass);
    NamesAreDetermined(c, s, r, Fail);
    NamesAreDetermined(c, s, r, Crash);
    NamesAreDetermined(c, s, r, Valgrind);
    NamesAreDetermined(c, s, r, Skip);
  }

  /** The schedule takes the pool to state `s`, in which the main thread has returned. */
  ghost predicate Completes(c: Config, schedule: seq<Actor>, s: State) {
    After(c, schedule) == Some(s) && s.main.Returned?
  }

  /**
   Main result: a completed uninterrupted run reports, for every number of workers and
   every interleaving, the counts and sorted name lists that the tests determine.
   */
  lemma OutcomeIsDetermined(c: Config, schedule: seq<Actor>, s: State)
    requires Completes(c, schedule, s) && Signal !in schedule
    ensures Reports(s.tally, c.tests)
    ensures s.main.code == ExitStatus(c, s.tally)
  {
    ReachableInv(c, schedule);
    NoSignal(c, schedule);
    CompletedReports(c, s);
  }

  /** Main result: any two completed uninterrupted runs of the same tests agree. */
  lemma Confluence(c: Config, d: Config, schedule: seq<Actor>, schedule': seq<Actor>, s: State, s': State)
    requires c.tests == d.tests && Signal !in schedule && Signal !in schedule'
    requires Completes(c, schedule, s) && Completes(d, schedule', s')
    ensures var t, t' := s.tally, s'.tally;
            && t.passed == t'.passed && t.failed == t'.failed && t.crashed == t'.crashed
            && t.valgrind == t'.valgrind && t.skipped == t'.skipped
            && Sort(t.failedNames) == Sort(t'.failedNames) && Sort(t.crashedNames) == Sort(t'.crashedNames)
            && Sort(t.valgrindNames) == Sort(t'.valgrindNames) && Sort(t.skippedNames) == Sort(t'.skippedNames)
    ensures s.main.code == s'.main.code
  {
    OutcomeIsDetermined(c, schedule, s);
    OutcomeIsDetermined(d, schedule', s');
  }

  // ----- the verdict, interrupted or not

  lemma {:induction false} CountersAddUp(jobs: seq<Job>)
    ensures var t := TallyOf(jobs);
            t.passed + t.failed + t.crashed + t.valgrind + t.skipped + Sum(jobs, IsToken) == |jobs|
  {
    if jobs != [] {
      var front := jobs[..|jobs| - 1];
      CountersAddUp(front);
      SumAppend(front, jobs[|jobs| - 1], IsToken);
      FrontAndLast(jobs);
    }
  }

  predicate Good(j: Job) {
    StatusOfJob(j) == Pass || StatusOfJob(j) == Skip
  }

  lemma {:induction false} AllGood(jobs: seq<Job>)
    ensures TallyOf(jobs).passed + TallyOf(jobs).skipped <= |jobs|
    ensures TallyOf(jobs).passed + TallyOf(jobs).skipped == |jobs| <==> forall j :: j in jobs ==> Good(j)
  {
    if jobs != [] {
      var front, x := jobs[..|jobs| - 1], jobs[|jobs| - 1];
      AllGood(front);
      FrontAndLast(jobs);
      assert x in jobs;
      assert forall j :: j in front ==> j in jobs;
    }
  }

  ghost predicate TestsGood(c: Config) {
    forall t :: t in c.tests ==> t.isSkip || t.exitCode == 0
  }

  /** All results are good exactly when none was broken off and all tests are good. */
  lemma GoodResults(c: Config, s: State)
    requires Inv(c, s) && |s.collected| == |c.tests|
    ensures (forall j :: j in s.collected ==> Good(j)) <==> Sum(s.collected, IsToken) == 0 && TestsGood(c)
  {
    var r := ResultsInOrder(c, s);
    SameLength(r, s.collected);
    if forall j :: j in s.collected ==> Good(j) {
      SumZero(s.collected, IsToken);
      assert forall j :: j in r ==> Good(j);
      GoodTests(c, r);
    }
    if Sum(s.collected, IsToken) == 0 && TestsGood(c) {
      forall j | j in s.collected ensures Good(j) {
        var k: nat := Locate(s.collected, j);
        SumAtLeast(s.collected, k, IsToken);
        assert j in r;
        GoodResult(c, r, j);
      }
    }
  }

  /** Good results, in the order of the tests, belong to good tests. */
  lemma GoodTests(c: Config, r: seq<Job>)
    requires |r| == |c.tests| && forall j :: j in r ==> Good(j)
    requires forall id :: 0 <= id < |r| ==> r[id] == Finished(c, id) || r[id] == Interrupted(c, id)
    ensures TestsGood(c)
  {
    forall t | t in c.tests ensures t.isSkip || t.exitCode == 0 {
      var id: nat := Locate(c.tests, t);
      assert r[id] in r;
    }
  }

  /** A result of a good test that is not broken off is good. */
  lemma GoodResult(c: Config, r: seq<Job>, j: Job)
    requires |r| == |c.tests| && TestsGood(c) && j in r && !j.isBreak
    requires forall id :: 0 <= id < |r| ==> r[id] == Finished(c, id) || r[id] == Interrupted(c, id)
    ensures Good(j)
  {
    var id: nat := Locate(r, j);
    assert c.tests[id] in c.tests;
  }

  /**
   Main result: wherever a signal lands, a completed run accounts for every test, and it
   returns 0 exactly when no job came back broken off and every test was skipped or
   exited with 0.
   */
  lemma Verdict(c: Config, schedule: seq<Actor>, s: State)
    requires Completes(c, schedule, s)
    ensures var t := s.tally;
            t.passed + t.failed + t.crashed + t.valgrind + t.skipped + Sum(s.collected, IsToken) == |c.tests|
    ensures s.main.code == (if Sum(s.collected, IsToken) == 0 && TestsGood(c) then 0 else 1)
  {
    ReachableInv(c, schedule);
    CountersAddUp(s.collected);
    AllGood(s.collected);
    GoodResults(c, s);
  }
}
