/** The order of the times in a job's record, by the clock readings of the events. */
module JobTimes {
  import opened Model
  import opened JobQueue
  import opened Protocol
  import opened Finality

  /** When the job was last handed out, or else created. */
  function Begun(job: Job): Time {
    if job.startedAt.Some? then job.startedAt.value else job.createdAt
  }

  /** Created before started, and a terminal job started before finished. */
  predicate InOrder(job: Job) {
    && job.createdAt <= Begun(job)
    && (job.status.IsTerminal() ==> job.finishedAt.Some? && Begun(job) <= job.finishedAt.value)
  }

  ghost predicate AllInOrder(s: Sys) {
    forall k | 0 <= k < |s.queue.jobs| :: InOrder(s.queue.jobs[k])
  }

  /** The step writes its reading into job `k`: a hand-out, a cancel, or a result that finishes the job. */
  ghost predicate Stamps(s: Sys, step: Step, k: nat)
    requires k < |s.queue.jobs|
  {
    || GivesOut(s, step, k) || Cancels(s, step, k)
    || (Reports(s, step, k) && !Retries(s.queue.jobs[k], step.event.answer.status))
  }

  /** A reading that is written into a job is not behind the time at which the job was handed out or created. */
  ghost predicate OnTime(s: Sys, step: Step) {
    forall k | 0 <= k < |s.queue.jobs| && Stamps(s, step, k) :: Begun(s.queue.jobs[k]) <= step.now
  }

  lemma OrderOfOne(s: Sys, step: Step, k: nat)
    requires Inv(s) && k < |s.queue.jobs| && InOrder(s.queue.jobs[k])
    ensures k < |Next(s, step).queue.jobs|
    ensures InOrder(Next(s, step).queue.jobs[k]) <==> (Stamps(s, step, k) ==> Begun(s.queue.jobs[k]) <= step.now)
  {
    StepOfJob(s, step, k);
    assert JobOk(s, s.queue.jobs[k]);
    if Reports(s, step, k) {
      var a := s.inflight[step.event.k];
      assert AttemptOk(s, a);
      FindAt(s.queue.jobs, k);
    }
  }

  lemma OrderStep(s: Sys, step: Step)
    requires Inv(s) && AllInOrder(s)
    ensures AllInOrder(Next(s, step)) <==> OnTime(s, step)
  {
    var s' := Next(s, step);
    forall k | 0 <= k < |s.queue.jobs|
      ensures k < |s'.queue.jobs|
      ensures InOrder(s'.queue.jobs[k]) <==> (Stamps(s, step, k) ==> Begun(s.queue.jobs[k]) <= step.now)
    {
      OrderOfOne(s, step, k);
    }
    forall k | |s.queue.jobs| <= k < |s'.queue.jobs|
      ensures InOrder(s'.queue.jobs[k])
    {
      NewJobOfStep(s, step, k);
    }
  }

  ghost predicate InOrderThroughout(s: Sys, run: seq<Step>)
    requires WellFormed(s.queue)
  {
    AllInOrder(Exec(s, run)) && (run != [] ==> InOrderThroughout(s, run[..|run| - 1]))
  }

  ghost predicate OnTimeThroughout(s: Sys, run: seq<Step>)
    requires WellFormed(s.queue)
  {
    run != [] ==>
      var n := |run| - 1;
      OnTimeThroughout(s, run[..n]) && OnTime(Exec(s, run[..n]), run[n])
  }

  /** The times of every job are in order throughout a run exactly if every reading written into a job is on time. */
  lemma {:induction false} TimesInOrderIff(threshold: Time, run: seq<Step>)
    ensures InOrderThroughout(Init(threshold), run) <==> OnTimeThroughout(Init(threshold), run)
  {
    if run != [] {
      var s0, n := Init(threshold), |run| - 1;
      TimesInOrderIff(threshold, run[..n]);
      InvExec(s0, run[..n]);
      if InOrderThroughout(s0, run[..n]) {
        OrderStep(Exec(s0, run[..n]), run[n]);
      }
    }
  }

  /**
   * What a clock that is not set back gives: an event that reads it under the lock has the latest reading so far.
   * A creation or registration has read it before it waited for the lock.
   */
  predicate ReadUnderLock(run: seq<Step>) {
    forall i, j | 0 <= i < j < |run| && !run[j].event.Submit? && !run[j].event.Join? :: run[i].now <= run[j].now
  }

  predicate ReadingsUpTo(run: seq<Step>, t: Time) {
    forall i | 0 <= i < |run| :: run[i].now <= t
  }

  /** The times of a job are readings of the run. */
  lemma {:induction false} TimesWereRead(threshold: Time, run: seq<Step>, t: Time, k: nat)
    requires ReadingsUpTo(run, t) && k < |Exec(Init(threshold), run).queue.jobs|
    ensures var job := Exec(Init(threshold), run).queue.jobs[k]; Begun(job) <= t && job.createdAt <= t
  {
    if run != [] {
      var s0, n := Init(threshold), |run| - 1;
      var before := Exec(s0, run[..n]);
      assert run[n].now <= t;
      if k < |before.queue.jobs| {
        TimesWereRead(threshold, run[..n], t, k);
        StepOfJob(before, run[n], k);
      } else {
        NewJobOfStep(before, run[n], k);
      }
    }
  }

  /** Such a clock keeps the times of all jobs in order, even if a creation waits long for the lock. */
  lemma {:induction false} ClockKeepsOrder(threshold: Time, run: seq<Step>)
    requires ReadUnderLock(run)
    ensures OnTimeThroughout(Init(threshold), run) && AllInOrder(Exec(Init(threshold), run))
  {
    if run != [] {
      var s0, n := Init(threshold), |run| - 1;
      var before := Exec(s0, run[..n]);
      ClockKeepsOrder(threshold, run[..n]);
      forall k | 0 <= k < |before.queue.jobs| && Stamps(before, run[n], k)
        ensures Begun(before.queue.jobs[k]) <= run[n].now
      {
        TimesWereRead(threshold, run[..n], run[n].now, k);
      }
    }
    TimesInOrderIff(threshold, run);
  }

  /** A clock set back after a creation: the job starts before it was created. */
  lemma TimesCanCross() returns (s: Sys)
    ensures Reachable(s) && |s.queue.jobs| == 1 && s.queue.jobs[0].status == Running
    ensures s.queue.jobs[0].startedAt.Some? && s.queue.jobs[0].startedAt.value < s.queue.jobs[0].createdAt
  {
    var create, join := OneJobSubmitted();
    OneJobOneAgent(create, join);
    TwoSteps(Init(0), create, join);
    var ready := Exec(Init(0), [create, join]);
    var job := ready.queue.jobs[0];
    var poll := Step(-1, Poll(join.event.registration.id, [job.jobType]));
    ExecSnoc(Init(0), [create, join], poll);
    assert Matches(job, CapSet([job.jobType])) && GivesOut(ready, poll, 0);
    StepOfJob(ready, poll, 0);
    EachJobAfter(ready.queue, CallOf(ready, poll).value);
    s := Next(ready, poll);
  }
}
