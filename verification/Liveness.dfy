/** Bounds over runs: how much work a set of jobs can cause, and how long a job can be overtaken. */
module Liveness {
  import opened Model
  import opened JobQueue
  import opened Protocol
  import opened Finality

  function Sum(jobs: seq<Job>, f: Job -> int): int {
    if jobs == [] then 0 else Sum(jobs[..|jobs| - 1], f) + f(jobs[|jobs| - 1])
  }

  /** Two lists that differ at one position differ there in their sums. */
  lemma {:induction false} SumChanges(a: seq<Job>, b: seq<Job>, k: nat, f: Job -> int)
    requires |a| == |b| && k < |a|
    requires forall i | 0 <= i < |a| && i != k :: f(a[i]) == f(b[i])
    ensures Sum(b, f) == Sum(a, f) - f(a[k]) + f(b[k])
  {
    var n := |a| - 1;
    if k < n {
      SumChanges(a[..n], b[..n], k, f);
    } else {
      SumAgrees(a[..n], b[..n], f);
    }
  }

  lemma {:induction false} SumAgrees(a: seq<Job>, b: seq<Job>, f: Job -> int)
    requires |a| == |b| && forall i | 0 <= i < |a| :: f(a[i]) == f(b[i])
    ensures Sum(a, f) == Sum(b, f)
  {
    if a != [] {
      SumAgrees(a[..|a| - 1], b[..|a| - 1], f);
    }
  }

  lemma SumAppends(jobs: seq<Job>, job: Job, f: Job -> int)
    ensures Sum(jobs + [job], f) == Sum(jobs, f) + f(job)
  {
    assert (jobs + [job])[..|jobs|] == jobs;
  }

  lemma {:induction false} SumIsNonnegative(jobs: seq<Job>, f: Job -> int)
    requires forall i | 0 <= i < |jobs| :: 0 <= f(jobs[i])
    ensures 0 <= Sum(jobs, f)
  {
    if jobs != [] {
      SumIsNonnegative(jobs[..|jobs| - 1], f);
    }
  }

  /** If no term grows, the sum does not; a term that falls by `d` lowers it by at least `d`. */
  lemma {:induction false} SumFalls(a: seq<Job>, b: seq<Job>, k: nat, d: int, f: Job -> int)
    requires |a| == |b| && k < |a| && f(b[k]) + d <= f(a[k])
    requires forall i | 0 <= i < |a| :: f(b[i]) <= f(a[i])
    ensures Sum(b, f) + d <= Sum(a, f)
  {
    var n := |a| - 1;
    if k < n {
      SumFalls(a[..n], b[..n], k, d, f);
    } else {
      SumDoesNotGrow(a[..n], b[..n], f);
    }
  }

  lemma {:induction false} SumDoesNotGrow(a: seq<Job>, b: seq<Job>, f: Job -> int)
    requires |a| == |b| && forall i | 0 <= i < |a| :: f(b[i]) <= f(a[i])
    ensures Sum(b, f) <= Sum(a, f)
  {
    if a != [] {
      SumDoesNotGrow(a[..|a| - 1], b[..|a| - 1], f);
    }
  }

  /** Attempts the job has left. */
  function Remaining(job: Job): int {
    Budget(job) - job.attemptCount
  }

  // ---- Bounded overtaking ----

  /** A registered agent able to run job `k`'s type polls. */
  ghost predicate CompatiblePoll(s: Sys, step: Step, k: nat) {
    && k < |s.queue.jobs| && Enabled(s, step) && step.event.Poll? && step.event.pollerId in s.queue.agents
    && s.queue.jobs[k].jobType in step.event.capabilities
  }

  ghost function CompatiblePolls(s: Sys, run: seq<Step>, k: nat): nat
    requires WellFormed(s.queue)
  {
    if run == [] then 0
    else
      var n := |run| - 1;
      CompatiblePolls(s, run[..n], k) + if CompatiblePoll(Exec(s, run[..n]), run[n], k) then 1 else 0
  }

  ghost predicate PendingAt(s: Sys, k: nat) {
    k < |s.queue.jobs| && s.queue.jobs[k].status == Pending
  }

  ghost predicate StaysPending(s: Sys, run: seq<Step>, k: nat)
    requires WellFormed(s.queue)
  {
    PendingAt(Exec(s, run), k) && (run != [] ==> StaysPending(s, run[..|run| - 1], k))
  }

  /** Attempts left to the jobs created before job `k`. */
  function EarlierAttempts(s: Sys, k: nat): int
    requires k <= |s.queue.jobs|
  {
    Sum(s.queue.jobs[..k], Remaining)
  }

  lemma AttemptsDoNotGrow(s: Sys, step: Step, k: nat)
    requires WellFormed(s.queue) && k < |s.queue.jobs|
    ensures k < |Next(s, step).queue.jobs|
    ensures Remaining(Next(s, step).queue.jobs[k]) ==
      Remaining(s.queue.jobs[k]) - if GivesOut(s, step, k) then 1 else 0
  {
    StepOfJob(s, step, k);
    RunKeepsJobs(s, [step]);
    ExecOne(s, step);
  }

  /** A compatible poll that leaves job `k` PENDING was given an earlier job, and used up one of its attempts. */
  lemma OvertakingSpends(s: Sys, step: Step, k: nat)
    requires Inv(s) && PendingAt(s, k) && PendingAt(Next(s, step), k)
    ensures EarlierAttempts(Next(s, step), k) + (if CompatiblePoll(s, step, k) then 1 else 0) <= EarlierAttempts(s, k)
    ensures CompatiblePoll(s, step, k) ==> exists i :: 0 <= i < k && GivesOut(s, step, i)
  {
    var s' := Next(s, step);
    forall i | 0 <= i < k
      ensures Remaining(s'.queue.jobs[..k][i])
           == Remaining(s.queue.jobs[..k][i]) - if GivesOut(s, step, i) then 1 else 0
    {
      AttemptsDoNotGrow(s, step, i);
    }
    if CompatiblePoll(s, step, k) {
      var i := FirstMatch(s.queue.jobs, CapSet(step.event.capabilities));
      assert Matches(s.queue.jobs[k], CapSet(step.event.capabilities));
      StepOfJob(s, step, k);
      assert i < k && GivesOut(s, step, i);
      SumFalls(s.queue.jobs[..k], s'.queue.jobs[..k], i, 1, Remaining);
    } else {
      SumDoesNotGrow(s.queue.jobs[..k], s'.queue.jobs[..k], Remaining);
    }
  }

  /**
   * While job `k` stays PENDING, polls by registered agents able to run it can go to other jobs at most as often
   * as the earlier jobs have attempts left, whatever creations, retries and cancellations interleave.
   */
  lemma {:induction false} BoundedOvertaking(s: Sys, run: seq<Step>, k: nat)
    requires Inv(s) && StaysPending(s, run, k) && k < |s.queue.jobs|
    ensures k < |Exec(s, run).queue.jobs|
    ensures CompatiblePolls(s, run, k) + EarlierAttempts(Exec(s, run), k) <= EarlierAttempts(s, k)
    ensures CompatiblePolls(s, run, k) <= EarlierAttempts(s, k)
  {
    InvExec(s, run);
    if run != [] {
      var n := |run| - 1;
      BoundedOvertaking(s, run[..n], k);
      InvExec(s, run[..n]);
      OvertakingSpends(Exec(s, run[..n]), run[n], k);
    }
    forall i | 0 <= i < k
      ensures 0 <= Remaining(Exec(s, run).queue.jobs[..k][i])
    {
      assert JobOk(Exec(s, run), Exec(s, run).queue.jobs[i]);
    }
    SumIsNonnegative(Exec(s, run).queue.jobs[..k], Remaining);
  }

  /** A step other than a cancel of job `k` leaves it PENDING or hands it out. */
  lemma PendingStep(s: Sys, step: Step, k: nat)
    requires Inv(s) && PendingAt(s, k) && step.event != Revoke(s.queue.jobs[k].id)
    ensures k < |Next(s, step).queue.jobs| && Next(s, step).queue.jobs[k].id == s.queue.jobs[k].id
    ensures Next(s, step).queue.jobs[k].attemptCount == s.queue.jobs[k].attemptCount ==> PendingAt(Next(s, step), k)
  {
    StepOfJob(s, step, k);
    if Reports(s, step, k) {
      ReportMeansInFlight(s, step, k);
    }
  }

  lemma AttemptsGrow(s: Sys, step: Step, k: nat)
    requires WellFormed(s.queue) && k < |s.queue.jobs|
    ensures k < |Next(s, step).queue.jobs| && Next(s, step).queue.jobs[k].id == s.queue.jobs[k].id
    ensures s.queue.jobs[k].attemptCount <= Next(s, step).queue.jobs[k].attemptCount
  {
    StepOfJob(s, step, k);
  }

  /** A PENDING job that nobody cancels stays PENDING until it is handed out. */
  lemma {:induction false} PendingUntilGivenOut(s: Sys, run: seq<Step>, k: nat)
    requires Inv(s) && PendingAt(s, k)
    requires forall n | 0 <= n < |run| :: run[n].event != Revoke(s.queue.jobs[k].id)
    ensures k < |Exec(s, run).queue.jobs| && Exec(s, run).queue.jobs[k].id == s.queue.jobs[k].id
    ensures s.queue.jobs[k].attemptCount <= Exec(s, run).queue.jobs[k].attemptCount
    ensures s.queue.jobs[k].attemptCount == Exec(s, run).queue.jobs[k].attemptCount ==> StaysPending(s, run, k)
  {
    if run != [] {
      var n := |run| - 1;
      PendingUntilGivenOut(s, run[..n], k);
      var before := Exec(s, run[..n]);
      AttemptsGrow(before, run[n], k);
      if before.queue.jobs[k].attemptCount == s.queue.jobs[k].attemptCount {
        InvExec(s, run[..n]);
        PendingStep(before, run[n], k);
      }
    }
  }

  /** No starvation: once compatible agents have polled often enough, an uncanceled PENDING job has been handed out. */
  lemma NoStarvation(s: Sys, run: seq<Step>, k: nat)
    requires Reachable(s) && PendingAt(s, k)
    requires forall n | 0 <= n < |run| :: run[n].event != Revoke(s.queue.jobs[k].id)
    requires CompatiblePolls(s, run, k) > EarlierAttempts(s, k)
    ensures k < |Exec(s, run).queue.jobs|
    ensures Exec(s, run).queue.jobs[k].attemptCount > s.queue.jobs[k].attemptCount
  {
    ReachableInv(s);
    PendingUntilGivenOut(s, run, k);
    if Exec(s, run).queue.jobs[k].attemptCount == s.queue.jobs[k].attemptCount {
      BoundedOvertaking(s, run, k);
    }
  }

  // ---- Whole-run termination ----

  /** What a job can still cause: four per attempt left, and one for becoming terminal. */
  function Weight(job: Job): int {
    4 * Remaining(job) + if job.status.IsTerminal() then 0 else 1
  }

  /** What creating a job adds. */
  function FreshWeight(job: Job): int {
    4 * Budget(job) + 1
  }

  function Measure(s: Sys): int {
    Sum(s.queue.jobs, Weight) + 2 * |s.inflight|
  }

  /** The step hands out a job, delivers or loses an attempt, or cancels a job. */
  ghost predicate Works(s: Sys, step: Step) {
    && Enabled(s, step)
    && (|| step.event.Deliver? || step.event.Lose?
        || (exists k :: 0 <= k < |s.queue.jobs| && (GivesOut(s, step, k) || Cancels(s, step, k))))
  }

  ghost function WorkingSteps(s: Sys, run: seq<Step>): nat
    requires WellFormed(s.queue)
  {
    if run == [] then 0
    else
      var n := |run| - 1;
      WorkingSteps(s, run[..n]) + if Works(Exec(s, run[..n]), run[n]) then 1 else 0
  }

  /** The only job a step can change: the one handed out, reported on or canceled. */
  lemma OnlyOneJobMoves(s: Sys, step: Step, k: nat)
    requires WellFormed(s.queue) && k < |s.queue.jobs|
    requires GivesOut(s, step, k) || Reports(s, step, k) || Cancels(s, step, k)
    ensures |Next(s, step).queue.jobs| == |s.queue.jobs|
    ensures Sum(Next(s, step).queue.jobs, Weight)
         == Sum(s.queue.jobs, Weight) - Weight(s.queue.jobs[k]) + Weight(Next(s, step).queue.jobs[k])
  {
    var s' := Next(s, step);
    EachJobAfter(s.queue, CallOf(s, step).value);
    forall i | 0 <= i < |s.queue.jobs| && i != k
      ensures s'.queue.jobs[i] == s.queue.jobs[i]
    {
      StepOfJob(s, step, i);
    }
    SumChanges(s.queue.jobs, s'.queue.jobs, k, Weight);
  }

  lemma GivingOutFalls(s: Sys, step: Step, k: nat)
    requires Inv(s) && k < |s.queue.jobs| && GivesOut(s, step, k)
    ensures Measure(Next(s, step)) == Measure(s) - 2
  {
    OnlyOneJobMoves(s, step, k);
    StepOfJob(s, step, k);
  }

  lemma CancelFalls(s: Sys, step: Step, k: nat)
    requires Inv(s) && k < |s.queue.jobs| && Cancels(s, step, k)
    ensures Measure(Next(s, step)) == Measure(s) - 1
  {
    OnlyOneJobMoves(s, step, k);
    StepOfJob(s, step, k);
  }

  lemma ReportFalls(s: Sys, step: Step)
    requires Inv(s) && Enabled(s, step) && step.event.Deliver?
    ensures Measure(Next(s, step)) <= Measure(s) - 1
  {
    assert AttemptOk(s, s.inflight[step.event.k]);
    var k := Find(s.queue.jobs, s.inflight[step.event.k].jobId);
    assert Reports(s, step, k);
    OnlyOneJobMoves(s, step, k);
    StepOfJob(s, step, k);
  }

  lemma UnchangedJobs(s: Sys, step: Step)
    requires Inv(s) && (Works(s, step) ==> step.event.Lose?)
    ensures var jobs := Next(s, step).queue.jobs;
      || jobs == s.queue.jobs
      || exists job ::
           jobs == s.queue.jobs + [job] && Weight(job) == FreshWeight(job) && Next(s, step).inflight == s.inflight
    ensures !Works(s, step) ==> Next(s, step).inflight == s.inflight
  {
    var s' := Next(s, step);
    forall i | 0 <= i < |s.queue.jobs|
      ensures i < |s'.queue.jobs| && s'.queue.jobs[i] == s.queue.jobs[i]
    {
      StepOfJob(s, step, i);
    }
    RunKeepsJobs(s, [step]);
    ExecOne(s, step);
    if |s'.queue.jobs| == |s.queue.jobs| {
      assert s'.queue.jobs == s.queue.jobs;
    } else {
      var n := |s.queue.jobs|;
      NewJobOfStep(s, step, n);
      EachJobAfter(s.queue, CallOf(s, step).value);
      assert s'.queue.jobs == s.queue.jobs + [s'.queue.jobs[n]];
    }
    if !Works(s, step) && Enabled(s, step) && step.event.Poll? && s'.inflight != s.inflight {
      var i := FirstMatch(s.queue.jobs, CapSet(step.event.capabilities));
      assert i < |s.queue.jobs| && GivesOut(s, step, i);
    }
  }

  /** Every step that works lowers the measure; only creating a job raises it, by what the new job can cause. */
  lemma MeasureFalls(s: Sys, step: Step)
    requires Inv(s)
    ensures var s' := Next(s, step);
      Measure(s') + (if Works(s, step) then 1 else 0) - Sum(s'.queue.jobs, FreshWeight)
        <= Measure(s) - Sum(s.queue.jobs, FreshWeight)
    ensures Works(s, step) ==> Measure(Next(s, step)) < Measure(s)
  {
    var s' := Next(s, step);
    if Works(s, step) && !step.event.Lose? {
      FreshWeightsKept(s, step);
      if step.event.Deliver? {
        ReportFalls(s, step);
      } else {
        var k :| 0 <= k < |s.queue.jobs| && (GivesOut(s, step, k) || Cancels(s, step, k));
        if GivesOut(s, step, k) {
          GivingOutFalls(s, step, k);
        } else {
          CancelFalls(s, step, k);
        }
      }
    } else {
      UnchangedJobs(s, step);
      if s'.queue.jobs != s.queue.jobs {
        var job :|
          s'.queue.jobs == s.queue.jobs + [job] && Weight(job) == FreshWeight(job) && s'.inflight == s.inflight;
        SumAppends(s.queue.jobs, job, Weight);
        SumAppends(s.queue.jobs, job, FreshWeight);
      }
    }
  }

  lemma FreshWeightsKept(s: Sys, step: Step)
    requires WellFormed(s.queue) && Works(s, step) && !step.event.Lose?
    ensures Sum(Next(s, step).queue.jobs, FreshWeight) == Sum(s.queue.jobs, FreshWeight)
  {
    RunKeepsJobs(s, [step]);
    ExecOne(s, step);
    EachJobAfter(s.queue, CallOf(s, step).value);
    SumAgrees(Next(s, step).queue.jobs, s.queue.jobs, FreshWeight);
  }

  /**
   * In every run, from any state, the working steps are paid for by the fall of the measure and by what newly
   * created jobs bring.
   */
  lemma {:induction false} WorkIsPaidFor(s: Sys, run: seq<Step>)
    requires Inv(s)
    ensures WorkingSteps(s, run) + Measure(Exec(s, run)) - Sum(Exec(s, run).queue.jobs, FreshWeight)
      <= Measure(s) - Sum(s.queue.jobs, FreshWeight)
  {
    if run != [] {
      var n := |run| - 1;
      WorkIsPaidFor(s, run[..n]);
      InvExec(s, run[..n]);
      MeasureFalls(Exec(s, run[..n]), run[n]);
    }
  }

  lemma MeasureIsNonnegative(s: Sys)
    requires Inv(s)
    ensures 0 <= Measure(s)
  {
    forall i | 0 <= i < |s.queue.jobs|
      ensures 0 <= Weight(s.queue.jobs[i])
    {
      assert JobOk(s, s.queue.jobs[i]);
    }
    SumIsNonnegative(s.queue.jobs, Weight);
  }

  /**
   * Termination: a run from an empty store makes at most 4*B + 1 working steps per job it created, however
   * cancellations, losses and agents interleave; from any reachable state, if no job is created, at most Measure(s).
   */
  lemma RunsTerminate(s: Sys, run: seq<Step>)
    requires Reachable(s)
    ensures s.queue.jobs == [] ==> WorkingSteps(s, run) <= Sum(Exec(s, run).queue.jobs, FreshWeight)
    ensures |Exec(s, run).queue.jobs| == |s.queue.jobs| ==> WorkingSteps(s, run) <= Measure(s)
  {
    ReachableInv(s);
    InvExec(s, run);
    WorkIsPaidFor(s, run);
    MeasureIsNonnegative(Exec(s, run));
    assert s.inflight != [] ==> AttemptOk(s, s.inflight[0]);
    if |Exec(s, run).queue.jobs| == |s.queue.jobs| {
      RunKeepsJobs(s, run);
      SumAgrees(Exec(s, run).queue.jobs, s.queue.jobs, FreshWeight);
    }
  }
}
