/** The batch driver's bookkeeping: the pool size, and the tally of the jobs' outcomes
    taken in submission order once all jobs have finished. The worker threads themselves
    are not modelled; each job is represented by what waiting on it yields. */
module ConcurrentTaskExecutor {
  import opened Faults

  /** What waiting on one job's future yields: the job's boolean result, or the fault
      raised while waiting (interruption, or the job's own failure). */
  datatype JobOutcome = Returned(status: bool) | Faulted(fault: Fault)

  datatype Counts = Counts(successCount: nat, failedCount: nat)

  /** One iteration of the tally: a true result is a success; a false result and a
      fault are each one failure. */
  function Record(c: Counts, outcome: JobOutcome): Counts {
    if outcome == Returned(true) then c.(successCount := c.successCount + 1)
    else c.(failedCount := c.failedCount + 1)
  }

  /** The counts after visiting `futures` in submission order, starting from zero. */
  function Tally(futures: seq<JobOutcome>): Counts {
    if futures == [] then Counts(0, 0)
    else Record(Tally(futures[..|futures| - 1]), futures[|futures| - 1])
  }

  /** Every job is counted once: successes plus failures is the number of jobs, and the
      successes are exactly the jobs that returned true. */
  lemma {:induction false} TallyCounts(futures: seq<JobOutcome>)
    ensures Tally(futures).successCount == multiset(futures)[Returned(true)]
    ensures Tally(futures).successCount + Tally(futures).failedCount == |futures|
  {
    if futures != [] {
      var init := futures[..|futures| - 1];
      TallyCounts(init);
      assert futures == init + [futures[|futures| - 1]];
      assert multiset(futures) == multiset(init) + multiset{futures[|futures| - 1]};
    }
  }

  /** The counts do not depend on the order the jobs are visited in, so they do not
      depend on the order in which the workers finish them either. */
  lemma TallyOrderIndependent(a: seq<JobOutcome>, b: seq<JobOutcome>)
    requires multiset(a) == multiset(b)
    ensures Tally(a) == Tally(b)
  {
    TallyCounts(a);
    TallyCounts(b);
    assert |a| == |multiset(a)| == |multiset(b)| == |b|;
  }

  /** `waitForCompletion`: visits the futures in submission order, each iteration adding
      one to exactly one counter; a fault while waiting counts as one failure and the
      loop goes on. */
  method WaitForCompletion(futureList: seq<JobOutcome>) returns (counts: Counts)
    ensures counts == Tally(futureList)
    ensures counts.successCount == multiset(futureList)[Returned(true)]
    ensures counts.successCount + counts.failedCount == |futureList|
  {
    var successCount := 0;
    var failedCount := 0;
    for k := 0 to |futureList|
      invariant Counts(successCount, failedCount) == Tally(futureList[..k])
    {
      assert futureList[..k + 1][..k] == futureList[..k];
      match futureList[k] {
        case Returned(status) =>
          if status {
            successCount := successCount + 1;
          } else {
            failedCount := failedCount + 1;
          }
        case Faulted(_) =>
          failedCount := failedCount + 1;
      }
    }
    assert futureList[..|futureList|] == futureList;
    counts := Counts(successCount, failedCount);
    TallyCounts(futureList);
  }

  /** How submitting the jobs ends: interrupted before all jobs finished, or with one
      outcome per job in submission order. */
  datatype Invocation = InvocationInterrupted | AllFinished(futures: seq<JobOutcome>)

  /** What a batch run leaves behind: the pool size used, the counts (or the interruption
      that aborted the wait), and whether the pool was shut down. */
  datatype Execution = Execution(threadCount: nat, counts: Result<Counts>, poolShutDown: bool)

  /** `executeTasks`: a pool of twice as many workers as processors; the outcomes are
      tallied once all jobs have finished; the pool is shut down on every path, the
      interrupted one included. */
  method ExecuteTasks(processors: nat, invocation: Invocation) returns (e: Execution)
    requires processors >= 1
    ensures e.threadCount == 2 * processors
    ensures e.poolShutDown
    ensures invocation.InvocationInterrupted? ==> e.counts == Err(Interrupted)
    ensures invocation.AllFinished? ==> e.counts == Ok(Tally(invocation.futures))
  {
    var threadCount := processors * 2;
    var counts: Result<Counts>;
    var poolShutDown := false;
    match invocation {
      case InvocationInterrupted =>
        counts := Err(Interrupted);
      case AllFinished(futures) =>
        var c := WaitForCompletion(futures);
        counts := Ok(c);
    }
    // finally: shut the pool down whatever happened above
    poolShutDown := true;
    e := Execution(threadCount, counts, poolShutDown);
  }
}
