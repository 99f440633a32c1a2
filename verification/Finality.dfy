/**
 * Exclusive execution, attempt accounting, field coherence and finality over runs of the worker protocol.
 */
module Finality {
  import opened Wrappers
  import opened Model
  import opened JobQueue
  import opened Requests
  import opened Protocol
  import opened JobHistory

  // ---- One step, from the point of view of one job ----

  /** The step hands job `k` to the polling agent. */
  ghost predicate GivesOut(s: Sys, step: Step, k: nat)
    requires k < |s.queue.jobs|
  {
    && Enabled(s, step) && step.event.Poll? && step.event.pollerId in s.queue.agents
    && FirstMatch(s.queue.jobs, CapSet(step.event.capabilities)) == k
  }

  /** The step delivers the result of an attempt of the job with this ID. */
  predicate DeliversTo(s: Sys, step: Step, id: string) {
    Enabled(s, step) && step.event.Deliver? && s.inflight[step.event.k].jobId == id
  }

  /** The step loses an attempt of the job with this ID. */
  predicate LosesFor(s: Sys, step: Step, id: string) {
    Enabled(s, step) && step.event.Lose? && s.inflight[step.event.k].jobId == id
  }

  /** The step delivers the result of job `k`'s attempt. */
  predicate Reports(s: Sys, step: Step, k: nat)
    requires k < |s.queue.jobs|
  {
    DeliversTo(s, step, s.queue.jobs[k].id)
  }

  /** The step loses job `k`'s attempt. */
  predicate Drops(s: Sys, step: Step, k: nat)
    requires k < |s.queue.jobs|
  {
    LosesFor(s, step, s.queue.jobs[k].id)
  }

  /** The step cancels job `k`. */
  ghost predicate Cancels(s: Sys, step: Step, k: nat)
    requires k < |s.queue.jobs|
  {
    && Enabled(s, step) && step.event.Revoke? && step.event.jobId == s.queue.jobs[k].id
    && !s.queue.jobs[k].status.IsTerminal()
  }

  /** The record of job `k` changes only by these three kinds of step. */
  lemma StepOfJob(s: Sys, step: Step, k: nat)
    requires WellFormed(s.queue) && k < |s.queue.jobs|
    ensures var job, s' := s.queue.jobs[k], Next(s, step);
      && k < |s'.queue.jobs|
      && s'.queue.jobs[k].id == job.id
      && s'.queue.jobs[k] ==
           if GivesOut(s, step, k) then Assigned(job, step.event.pollerId, step.now)
           else if Reports(s, step, k) then Completed(job, step.event.answer, step.now)
           else if Cancels(s, step, k) then CanceledAt(job, step.now)
           else job
  {
    if Enabled(s, step) && CallOf(s, step).Some? {
      EachJobAfter(s.queue, CallOf(s, step).value);
    }
  }

  /** An attempt of job `k` comes into flight when it is given out, and leaves when it reports or is lost. */
  lemma StepOfAttempt(s: Sys, step: Step, k: nat)
    requires Inv(s) && k < |s.queue.jobs|
    ensures k < |Next(s, step).queue.jobs|
    ensures InFlight(Next(s, step), k) <==>
      GivesOut(s, step, k) || (InFlight(s, k) && !Reports(s, step, k) && !Drops(s, step, k))
  {
    StepOfJob(s, step, k);
    var s', id := Next(s, step), s.queue.jobs[k].id;
    if Enabled(s, step) && (step.event.Deliver? || step.event.Lose?) {
      WithoutHolds(s.inflight, step.event.k, id);
    } else if Enabled(s, step) && step.event.Poll? {
      PollPutsInFlight(s, step, k);
    }
  }

  lemma WithoutHolds(inflight: seq<Attempt>, k: nat, id: string)
    requires OneAttemptPerJob(inflight) && k < |inflight|
    ensures Outstanding(Without(inflight, k), id) <==> Outstanding(inflight, id) && inflight[k].jobId != id
  {
    var rest := Without(inflight, k);
    if b :| 0 <= b < |rest| && rest[b].jobId == id {
      var a := if b < k then b else b + 1;
      assert inflight[a] == rest[b];
    }
    if inflight[k].jobId != id {
      if a :| 0 <= a < |inflight| && inflight[a].jobId == id {
        assert rest[if a < k then a else a - 1].jobId == id;
      }
    }
  }

  lemma PollPutsInFlight(s: Sys, step: Step, k: nat)
    requires Inv(s) && k < |s.queue.jobs| && Enabled(s, step) && step.event.Poll?
    requires k < |Next(s, step).queue.jobs| && Next(s, step).queue.jobs[k].id == s.queue.jobs[k].id
    ensures InFlight(Next(s, step), k) <==> GivesOut(s, step, k) || InFlight(s, k)
  {
    var s' := Next(s, step);
    var i := FirstMatch(s.queue.jobs, CapSet(step.event.capabilities));
    if step.event.pollerId in s.queue.agents && i < |s.queue.jobs| {
      var n := |s.inflight|;
      assert s'.inflight[n].jobId == s.queue.jobs[i].id;
      if i == k {
        assert s'.inflight[n].jobId == s'.queue.jobs[k].id;
      } else if InFlight(s', k) {
        var a :| 0 <= a < |s'.inflight| && s'.inflight[a].jobId == s.queue.jobs[k].id;
        assert a != n && s.inflight[a].jobId == s.queue.jobs[k].id;
      }
      if InFlight(s, k) {
        var a :| 0 <= a < n && s.inflight[a].jobId == s.queue.jobs[k].id;
        assert s'.inflight[a].jobId == s.queue.jobs[k].id;
      }
    } else {
      assert s'.inflight == s.inflight;
    }
  }

  /** What an attempt in flight says about its job. */
  lemma InFlightMeans(s: Sys, k: nat)
    requires Inv(s) && k < |s.queue.jobs| && InFlight(s, k)
    ensures s.queue.jobs[k].status == Running || s.queue.jobs[k].status == Canceled
  {
    var a :| 0 <= a < |s.inflight| && s.inflight[a].jobId == s.queue.jobs[k].id;
    assert AttemptOk(s, s.inflight[a]);
    FindAt(s.queue.jobs, k);
  }

  // ---- Exclusive execution ----

  /**
   * In every reachable state a job has at most one attempt in flight, PENDING, SUCCESS and FAILED jobs have none,
   * and an attempt in flight belongs to the job's assigned agent and is its latest attempt: no stale result exists.
   */
  lemma ExclusiveExecution(s: Sys, k: nat, a: nat, b: nat)
    requires Reachable(s) && k < |s.queue.jobs| && a < |s.inflight| && b < |s.inflight|
    requires s.inflight[a].jobId == s.queue.jobs[k].id
    ensures s.inflight[b].jobId == s.queue.jobs[k].id ==> a == b
    ensures s.queue.jobs[k].status == Running || s.queue.jobs[k].status == Canceled
    ensures s.inflight[a] == Attempt(s.queue.jobs[k].id, s.queue.jobs[k].assignedAgentId, s.queue.jobs[k].attemptCount)
    ensures s.inflight[a].agentId in s.queue.agents
  {
    ReachableInv(s);
    assert AttemptOk(s, s.inflight[a]);
    FindAt(s.queue.jobs, k);
  }

  // ---- Field coherence ----

  /** The fields of a stored job agree with its status. */
  lemma FieldsCohere(s: Sys, k: nat)
    requires Reachable(s) && k < |s.queue.jobs|
    ensures var job := s.queue.jobs[k];
      && (job.status == Pending ==> job.assignedAgentId == "" && job.startedAt == None)
      && (job.status == Running ==>
            job.assignedAgentId in s.queue.agents && job.startedAt.Some? && 1 <= job.attemptCount)
      && (job.status.IsTerminal() ==> job.finishedAt.Some?)
      && job.status in {Pending, Running, Success, Failed, Canceled}
  {
    ReachableInv(s);
    assert JobOk(s, s.queue.jobs[k]);
  }

  /** Some step of the run canceled the job with this ID. */
  ghost predicate WasCanceled(s: Sys, run: seq<Step>, id: string)
    requires WellFormed(s.queue)
  {
    run != [] &&
    var n := |run| - 1;
    var before := Exec(s, run[..n]);
    var k := Find(before.queue.jobs, id);
    WasCanceled(s, run[..n], id) || (k < |before.queue.jobs| && Cancels(before, run[n], k))
  }

  lemma {:induction false} NotCanceledBeforeCreation(s: Sys, run: seq<Step>, id: string)
    requires WellFormed(s.queue) && Find(Exec(s, run).queue.jobs, id) == |Exec(s, run).queue.jobs|
    ensures !WasCanceled(s, run, id)
  {
    if run != [] {
      var n := |run| - 1;
      var before := Exec(s, run[..n]);
      var k := Find(before.queue.jobs, id);
      if k < |before.queue.jobs| {
        StepOfJob(before, run[n], k);
      }
      NotCanceledBeforeCreation(s, run[..n], id);
    }
  }

  /** A step adds at most one job, as handleCreateJob builds it, under a new ID. */
  lemma NewJobOfStep(s: Sys, step: Step, k: nat)
    requires WellFormed(s.queue) && |s.queue.jobs| <= k < |Next(s, step).queue.jobs|
    ensures k == |s.queue.jobs| && Enabled(s, step) && step.event.Submit?
    ensures Next(s, step).queue.jobs[k] == NewJob(step.event.request, step.event.id, step.now)
    ensures Find(s.queue.jobs, step.event.id) == |s.queue.jobs|
  {
    if Enabled(s, step) && CallOf(s, step).Some? {
      EachJobAfter(s.queue, CallOf(s, step).value);
    }
  }

  predicate FinishedAtShows(job: Job, canceled: bool) {
    && (canceled ==> job.finishedAt.Some?)
    && (job.status == Canceled ==> canceled)
    && (!job.status.IsTerminal() && job.finishedAt.Some? ==> canceled)
  }

  lemma FinishedAtStep(s: Sys, step: Step, k: nat, canceled: bool)
    requires Inv(s) && k < |s.queue.jobs| && FinishedAtShows(s.queue.jobs[k], canceled)
    ensures k < |Next(s, step).queue.jobs|
    ensures FinishedAtShows(Next(s, step).queue.jobs[k], canceled || Cancels(s, step, k))
  {
    StepOfJob(s, step, k);
    assert JobOk(s, s.queue.jobs[k]);
    if Reports(s, step, k) {
      ReportMeansInFlight(s, step, k);
    }
  }

  /** In a run from an empty store, FinishedAt of a live job is set exactly when it was canceled and came back. */
  lemma {:induction false} FinishedAtOfALiveJob(s: Sys, run: seq<Step>, k: nat)
    requires Inv(s) && s.queue.jobs == [] && k < |Exec(s, run).queue.jobs|
    ensures var job := Exec(s, run).queue.jobs[k];
      && (!job.status.IsTerminal() ==> (job.finishedAt.Some? <==> WasCanceled(s, run, job.id)))
      && FinishedAtShows(job, WasCanceled(s, run, job.id))
  {
    if run != [] {
      var n := |run| - 1;
      var before := Exec(s, run[..n]);
      InvExec(s, run[..n]);
      if k < |before.queue.jobs| {
        FinishedAtOfALiveJob(s, run[..n], k);
        FinishedAtStep(before, run[n], k, WasCanceled(s, run[..n], before.queue.jobs[k].id));
        StepOfJob(before, run[n], k);
        FindAt(before.queue.jobs, k);
      } else {
        NewJobOfStep(before, run[n], k);
        NotCanceledBeforeCreation(s, run[..n], run[n].event.id);
      }
    }
  }

  lemma ReportMeansInFlight(s: Sys, step: Step, k: nat)
    requires Inv(s) && k < |s.queue.jobs| && (Reports(s, step, k) || Drops(s, step, k))
    ensures InFlight(s, k) && (s.queue.jobs[k].status == Running || s.queue.jobs[k].status == Canceled)
  {
    assert s.inflight[step.event.k].jobId == s.queue.jobs[k].id;
    InFlightMeans(s, k);
  }

  // ---- Attempt accounting ----

  /** Every job of a run was first stored as handleCreateJob builds it. */
  lemma {:induction false} FirstStoredFresh(threshold: Time, run: seq<Step>, k: nat)
    requires k < |Exec(Init(threshold), run).queue.jobs|
    ensures var s0 := Init(threshold);
      Exec(s0, run).queue == Replay(s0.queue, Calls(s0, run)) &&
      var first := Original(s0.queue, Calls(s0, run), k);
      && first.status == Pending && first.attemptCount == 0
      && first.logs == [] && first.error == "" && first.result == None
  {
    var s0 := Init(threshold);
    RunIsReplay(s0, run);
    if run != [] {
      var n := |run| - 1;
      var before, calls := Exec(s0, run[..n]), Calls(s0, run);
      RunIsReplay(s0, run[..n]);
      if Enabled(before, run[n]) && CallOf(before, run[n]).Some? {
        assert calls[..|calls| - 1] == Calls(s0, run[..n]);
      } else {
        assert calls == Calls(s0, run[..n]);
      }
      if k < |before.queue.jobs| {
        FirstStoredFresh(threshold, run[..n], k);
      } else {
        NewJobOfStep(before, run[n], k);
      }
    }
  }

  /** What a history makes of a record that had none before. */
  lemma FreshFolds(first: Job, job: Job, handOuts: nat, answers: seq<Answer>)
    requires Folds(first, job, handOuts, answers)
    requires first.attemptCount == 0 && first.logs == [] && first.error == "" && first.result == None
    ensures job.attemptCount == handOuts && job.logs == AllLogs(answers)
    ensures answers == [] ==> job.error == "" && job.result == None
    ensures answers != [] ==>
      job.error == answers[|answers| - 1].error && job.result == answers[|answers| - 1].result
  {
    assert [] + AllLogs(answers) == AllLogs(answers);
  }

  /** The history of a job of a run. */
  lemma RunFolds(threshold: Time, run: seq<Step>, k: nat)
    requires k < |Exec(Init(threshold), run).queue.jobs|
    ensures var s0 := Init(threshold);
      var job := Exec(s0, run).queue.jobs[k];
      var handOuts, answers := HandOuts(s0.queue, Calls(s0, run), job.id), Recorded(s0.queue, Calls(s0, run), job.id);
      && job.attemptCount == handOuts && job.logs == AllLogs(answers)
      && (answers == [] ==> job.error == "" && job.result == None)
      && (answers != [] ==>
            job.error == answers[|answers| - 1].error && job.result == answers[|answers| - 1].result)
  {
    var s0 := Init(threshold);
    FirstStoredFresh(threshold, run, k);
    var calls, job := Calls(s0, run), Exec(s0, run).queue.jobs[k];
    HistoryFold(s0.queue, calls, k);
    FreshFolds(Original(s0.queue, calls, k), job, HandOuts(s0.queue, calls, job.id), Recorded(s0.queue, calls, job.id));
  }

  lemma RunJobOk(threshold: Time, run: seq<Step>, k: nat)
    requires k < |Exec(Init(threshold), run).queue.jobs|
    ensures var s := Exec(Init(threshold), run); JobOk(s, s.queue.jobs[k])
  {
    InvExec(Init(threshold), run);
  }

  /**
   * AttemptCount is the number of times the job was handed out in the run and never exceeds B; a PENDING job has
   * attempts left; a FAILED job, even one that was canceled on the way, was handed out exactly B times. Its logs,
   * result and error are those of the results delivered for it.
   */
  lemma AttemptAccounting(threshold: Time, run: seq<Step>, k: nat)
    requires k < |Exec(Init(threshold), run).queue.jobs|
    ensures var s0 := Init(threshold);
      var job := Exec(s0, run).queue.jobs[k];
      var handOuts, answers := HandOuts(s0.queue, Calls(s0, run), job.id), Recorded(s0.queue, Calls(s0, run), job.id);
      && job.attemptCount == handOuts <= Budget(job)
      && (job.status == Pending ==> handOuts < Budget(job))
      && (job.status == Failed ==> handOuts == Budget(job))
      && job.logs == AllLogs(answers)
      && (answers == [] ==> job.error == "" && job.result == None)
      && (answers != [] ==>
            job.error == answers[|answers| - 1].error && job.result == answers[|answers| - 1].result)
  {
    RunFolds(threshold, run, k);
    RunJobOk(threshold, run, k);
  }

  // ---- Finality ----

  /** Nothing outstanding can change the job, and nobody can be given it. */
  ghost predicate Settled(s: Sys, k: nat) {
    k < |s.queue.jobs| && s.queue.jobs[k].status != Pending && !InFlight(s, k)
  }

  lemma SettledStep(s: Sys, step: Step, k: nat)
    requires Inv(s) && Settled(s, k)
    ensures Settled(Next(s, step), k)
    ensures Next(s, step).queue.jobs[k] ==
      if Cancels(s, step, k) then CanceledAt(s.queue.jobs[k], step.now) else s.queue.jobs[k]
  {
    StepOfJob(s, step, k);
    StepOfAttempt(s, step, k);
    if Reports(s, step, k) {
      ReportMeansInFlight(s, step, k);
    }
  }

  /** A terminal job without an attempt in flight keeps its whole record in every run. */
  lemma {:induction false} SettledIsFinal(s: Sys, run: seq<Step>, k: nat)
    requires Inv(s) && Settled(s, k) && s.queue.jobs[k].status.IsTerminal()
    ensures Settled(Exec(s, run), k) && Exec(s, run).queue.jobs[k] == s.queue.jobs[k]
  {
    if run != [] {
      var n := |run| - 1;
      SettledIsFinal(s, run[..n], k);
      InvExec(s, run[..n]);
      SettledStep(Exec(s, run[..n]), run[n], k);
    }
  }

  /** SUCCESS and FAILED are never left: no field of the record changes any more. */
  lemma SuccessAndFailedAreFinal(s: Sys, run: seq<Step>, k: nat)
    requires Reachable(s) && k < |s.queue.jobs|
    requires s.queue.jobs[k].status == Success || s.queue.jobs[k].status == Failed
    ensures k < |Exec(s, run).queue.jobs| && Exec(s, run).queue.jobs[k] == s.queue.jobs[k]
  {
    ReachableInv(s);
    if InFlight(s, k) {
      InFlightMeans(s, k);
    }
    SettledIsFinal(s, run, k);
  }

  /** A job canceled while PENDING is CANCELED forever. */
  lemma CanceledWhilePendingIsFinal(s: Sys, step: Step, run: seq<Step>, k: nat)
    requires Reachable(s) && k < |s.queue.jobs| && s.queue.jobs[k].status == Pending && Cancels(s, step, k)
    ensures k < |Exec(s, [step] + run).queue.jobs|
    ensures Exec(s, [step] + run).queue.jobs[k] == CanceledAt(s.queue.jobs[k], step.now)
  {
    ReachableInv(s);
    InvNext(s, step);
    StepOfJob(s, step, k);
    StepOfAttempt(s, step, k);
    if InFlight(s, k) {
      InFlightMeans(s, k);
    }
    assert Exec(s, [step]) == Next(s, step) by {
      ExecOne(s, step);
    }
    ExecConcat(s, [step], run);
    SettledIsFinal(Next(s, step), run, k);
  }

  /**
   * A RUNNING job whose attempt was lost is never given out again and gets no result: nothing but a cancel
   * changes its record, and then it stays canceled.
   */
  lemma {:induction false} AbandonedStaysRunning(s: Sys, run: seq<Step>, k: nat)
    requires Inv(s) && Settled(s, k) && s.queue.jobs[k].status == Running
    ensures Settled(Exec(s, run), k)
    ensures var job := Exec(s, run).queue.jobs[k];
      || job == s.queue.jobs[k]
      || exists n :: && 0 <= n < |run| && run[n].event == Revoke(job.id)
                     && job == CanceledAt(s.queue.jobs[k], run[n].now)
  {
    if run != [] {
      var n := |run| - 1;
      AbandonedStaysRunning(s, run[..n], k);
      InvExec(s, run[..n]);
      var before := Exec(s, run[..n]);
      SettledStep(before, run[n], k);
      if before.queue.jobs[k] != s.queue.jobs[k] {
        var m :| 0 <= m < n && run[..n][m].event == Revoke(before.queue.jobs[k].id)
                 && before.queue.jobs[k] == CanceledAt(s.queue.jobs[k], run[..n][m].now);
        assert run[m] == run[..n][m];
      }
    }
  }

  /** The run cancels no job of this ID, and after it job `k` is not RUNNING. */
  ghost predicate LeavesRunning(s: Sys, run: seq<Step>, k: nat)
    requires WellFormed(s.queue) && k < |s.queue.jobs|
  {
    && (forall n | 0 <= n < |run| :: run[n].event != Revoke(s.queue.jobs[k].id))
    && k < |Exec(s, run).queue.jobs| && Exec(s, run).queue.jobs[k].status != Running
  }

  /** A RUNNING job that nobody cancels can leave RUNNING exactly while its attempt is in flight. */
  lemma RunningIsLeftIffInFlight(s: Sys, k: nat)
    requires Reachable(s) && k < |s.queue.jobs| && s.queue.jobs[k].status == Running
    ensures (exists run :: LeavesRunning(s, run, k)) <==> InFlight(s, k)
  {
    ReachableInv(s);
    if InFlight(s, k) {
      var a :| 0 <= a < |s.inflight| && s.inflight[a].jobId == s.queue.jobs[k].id;
      var step := Step(0, Deliver(a, Answer(Success, [], None, "")));
      assert Reports(s, step, k);
      StepOfJob(s, step, k);
      ExecOne(s, step);
      assert LeavesRunning(s, [step], k);
    } else {
      forall run
        ensures !LeavesRunning(s, run, k)
      {
        AbandonedStaysRunning(s, run, k);
      }
    }
  }

  /** The record of job `k` is still that of `s`, and `a` is the only attempt of it that may be in flight. */
  ghost predicate HoldsCanceled(s: Sys, now: Sys, k: nat, a: Attempt) {
    && k < |s.queue.jobs| && k < |now.queue.jobs| && now.queue.jobs[k] == s.queue.jobs[k]
    && forall b | 0 <= b < |now.inflight| :: now.inflight[b].jobId == s.queue.jobs[k].id ==> now.inflight[b] == a
  }

  /** Step `n` of the run delivers exactly attempt `a`, while the record is still that of `s`. */
  ghost predicate DeliversAt(s: Sys, run: seq<Step>, n: nat, k: nat, a: Attempt)
    requires WellFormed(s.queue)
  {
    n < |run| &&
    var before := Exec(s, run[..n]);
    HoldsCanceled(s, before, k, a) && Reports(before, run[n], k) && before.inflight[run[n].event.k] == a
  }

  lemma HoldsCanceledStep(s: Sys, now: Sys, step: Step, k: nat, a: Attempt)
    requires Inv(now) && HoldsCanceled(s, now, k, a) && s.queue.jobs[k].status == Canceled
    ensures HoldsCanceled(s, Next(now, step), k, a) || (Reports(now, step, k) && now.inflight[step.event.k] == a)
  {
    StepOfJob(now, step, k);
    NoNewAttempt(now, step, k);
  }

  /**
   * A job canceled while RUNNING leaves CANCELED only through the one result outstanding at that moment: in every
   * run either its record is unchanged at the end, or some step delivered exactly that attempt, and the record was
   * unchanged until then.
   */
  lemma {:induction false} CanceledUntilItsResult(s: Sys, run: seq<Step>, k: nat, i: nat) returns (n: nat)
    requires Inv(s) && k < |s.queue.jobs| && s.queue.jobs[k].status == Canceled
    requires i < |s.inflight| && s.inflight[i].jobId == s.queue.jobs[k].id
    ensures HoldsCanceled(s, Exec(s, run), k, s.inflight[i]) || DeliversAt(s, run, n, k, s.inflight[i])
  {
    n := 0;
    if run != [] {
      var last := |run| - 1;
      n := CanceledUntilItsResult(s, run[..last], k, i);
      InvExec(s, run[..last]);
      if HoldsCanceled(s, Exec(s, run[..last]), k, s.inflight[i]) {
        HoldsCanceledStep(s, Exec(s, run[..last]), run[last], k, s.inflight[i]);
        n := last;
      } else {
        assert run[..last][..n] == run[..n];
      }
    }
  }

  /** A step that does not give the job out adds no attempt of it. */
  lemma NoNewAttempt(s: Sys, step: Step, k: nat)
    requires WellFormed(s.queue) && k < |s.queue.jobs| && s.queue.jobs[k].status != Pending
    ensures forall b | 0 <= b < |Next(s, step).inflight| ::
      Next(s, step).inflight[b].jobId == s.queue.jobs[k].id ==> Next(s, step).inflight[b] in s.inflight
  {
    var s', n := Next(s, step), |s.inflight|;
    if Enabled(s, step) && step.event.Poll? && |s'.inflight| > n {
      var i := FirstMatch(s.queue.jobs, CapSet(step.event.capabilities));
      FindAt(s.queue.jobs, i);
      FindAt(s.queue.jobs, k);
      assert i != k && s'.inflight[n].jobId == s.queue.jobs[i].id;
    }
  }

  /** Whether a terminal job can ever come back to life. */
  ghost predicate Revivable(s: Sys, k: nat)
    requires k < |s.queue.jobs|
  {
    s.queue.jobs[k].status == Canceled && InFlight(s, k) && s.queue.jobs[k].attemptCount < s.queue.jobs[k].maxRetries
  }

  lemma TerminalStep(s: Sys, step: Step, k: nat)
    requires Inv(s) && k < |s.queue.jobs| && s.queue.jobs[k].status.IsTerminal() && !Revivable(s, k)
    ensures var s' := Next(s, step);
      k < |s'.queue.jobs| && s'.queue.jobs[k].status.IsTerminal() && !Revivable(s', k)
  {
    StepOfJob(s, step, k);
    StepOfAttempt(s, step, k);
    if Reports(s, step, k) {
      ReportMeansInFlight(s, step, k);
    }
  }

  lemma {:induction false} TerminalRun(s: Sys, run: seq<Step>, k: nat)
    requires Inv(s) && k < |s.queue.jobs| && s.queue.jobs[k].status.IsTerminal() && !Revivable(s, k)
    ensures var s' := Exec(s, run);
      k < |s'.queue.jobs| && s'.queue.jobs[k].status.IsTerminal() && !Revivable(s', k)
  {
    if run != [] {
      TerminalRun(s, run[..|run| - 1], k);
      InvExec(s, run[..|run| - 1]);
      TerminalStep(Exec(s, run[..|run| - 1]), run[|run| - 1], k);
    }
  }

  lemma RevivedByItsResult(s: Sys, k: nat) returns (step: Step)
    requires Inv(s) && k < |s.queue.jobs| && Revivable(s, k)
    ensures Exec(s, [step]) == Next(s, step) && step.event.Deliver?
    ensures k < |Next(s, step).queue.jobs| && Next(s, step).queue.jobs[k].status == Pending
    ensures Next(s, step).queue.jobs[k].finishedAt == s.queue.jobs[k].finishedAt
  {
    var a :| 0 <= a < |s.inflight| && s.inflight[a].jobId == s.queue.jobs[k].id;
    step := Step(0, Deliver(a, Answer(Failed, [], None, "")));
    StepOfJob(s, step, k);
    assert Reports(s, step, k);
    ExecOne(s, step);
  }

  /**
   * Terminal states are final in the worker protocol, exactly with this exception: a job canceled while its
   * attempt was out, with retries left, can come back.
   */
  lemma TerminalIsFinalUnlessRevivable(s: Sys, k: nat)
    requires Reachable(s) && k < |s.queue.jobs| && s.queue.jobs[k].status.IsTerminal()
    ensures (exists run :: k < |Exec(s, run).queue.jobs| && !Exec(s, run).queue.jobs[k].status.IsTerminal())
      <==> Revivable(s, k)
  {
    ReachableInv(s);
    if Revivable(s, k) {
      var step := RevivedByItsResult(s, k);
      assert !Exec(s, [step]).queue.jobs[k].status.IsTerminal();
    } else {
      forall run
        ensures k < |Exec(s, run).queue.jobs| && Exec(s, run).queue.jobs[k].status.IsTerminal()
      {
        TerminalRun(s, run, k);
      }
    }
  }

  /** The only job of a store is handed out and then canceled: it can come back if retries are left. */
  lemma GivenOutThenCanceled(s: Sys, agentId: string)
    requires Inv(s) && |s.queue.jobs| == 1 && s.queue.jobs[0].status == Pending && agentId in s.queue.agents
    requires s.queue.jobs[0].attemptCount + 1 < s.queue.jobs[0].maxRetries
    ensures var polled := Next(s, Step(0, Poll(agentId, [s.queue.jobs[0].jobType])));
      var canceled := Next(polled, Step(0, Revoke(s.queue.jobs[0].id)));
      |canceled.queue.jobs| == 1 && Revivable(canceled, 0)
  {
    var poll := Step(0, Poll(agentId, [s.queue.jobs[0].jobType]));
    var polled := Next(s, poll);
    assert Matches(s.queue.jobs[0], CapSet([s.queue.jobs[0].jobType]));
    assert GivesOut(s, poll, 0);
    StepOfJob(s, poll, 0);
    StepOfAttempt(s, poll, 0);
    InvNext(s, poll);
    var revoke := Step(0, Revoke(s.queue.jobs[0].id));
    StepOfJob(polled, revoke, 0);
    StepOfAttempt(polled, revoke, 0);
    EachJobAfter(polled.queue, CallOf(polled, revoke).value);
  }

  lemma OneJobOneAgent(create: Step, join: Step)
    requires Enabled(Init(0), create) && create.event.Submit? && create.now == 0
    requires Enabled(Init(0), join) && join.event.Join? && join.now == 0
    ensures var s := Next(Next(Init(0), create), join);
      && Inv(s) && s.inflight == [] && join.event.registration.id in s.queue.agents
      && s.queue.jobs == [NewJob(create.event.request, create.event.id, 0)]
  {
    var s0 := Init(0);
    InvExec(s0, []);
    InvNext(s0, create);
    InvNext(Next(s0, create), join);
  }

  /** Creating a job with retries, handing it out and canceling it is a run. */
  lemma CancelRace(create: Step, join: Step) returns (canceled: Sys)
    requires Enabled(Init(0), create) && create.event.Submit? && create.now == 0
    requires Enabled(Init(0), join) && join.event.Join? && join.now == 0
    requires create.event.request.maxRetries >= 2
    ensures Reachable(canceled) && |canceled.queue.jobs| == 1 && Revivable(canceled, 0)
  {
    OneJobOneAgent(create, join);
    var s := Next(Next(Init(0), create), join);
    var agentId, job := join.event.registration.id, s.queue.jobs[0];
    GivenOutThenCanceled(s, agentId);
    var run := [create, join, Step(0, Poll(agentId, [job.jobType])), Step(0, Revoke(job.id))];
    FourSteps(Init(0), run);
    canceled := Exec(Init(0), run);
  }

  /**
   * The exception happens: a job with two attempts is handed out, canceled, and its late FAILED result puts it
   * back to PENDING.
   */
  lemma LateFailureRevives() returns (canceled: Sys, late: Step)
    ensures Reachable(canceled) && |canceled.queue.jobs| == 1 && canceled.queue.jobs[0].status == Canceled
    ensures Next(canceled, late).queue.jobs != [] && Next(canceled, late).queue.jobs[0].status == Pending
  {
    var create, join := OneJobSubmitted();
    canceled := CancelRace(create, join);
    ReachableInv(canceled);
    late := RevivedByItsResult(canceled, 0);
  }

  /** The only job of a store is handed out and the attempt is lost. */
  lemma GivenOutThenLost(s: Sys, agentId: string)
    requires Inv(s) && |s.queue.jobs| == 1 && s.queue.jobs[0].status == Pending && agentId in s.queue.agents
    requires s.inflight == []
    ensures var lost := Next(Next(s, Step(0, Poll(agentId, [s.queue.jobs[0].jobType]))), Step(0, Lose(0)));
      |lost.queue.jobs| == 1 && lost.queue.jobs[0].status == Running && lost.inflight == []
  {
    var poll := Step(0, Poll(agentId, [s.queue.jobs[0].jobType]));
    assert Matches(s.queue.jobs[0], CapSet([s.queue.jobs[0].jobType]));
    StepOfJob(s, poll, 0);
    EachJobAfter(s.queue, CallOf(s, poll).value);
  }

  /** It happens: a job is handed out and its attempt lost, and it is RUNNING with nobody at work on it. */
  lemma LostAttemptAbandonsItsJob() returns (lost: Sys)
    ensures Reachable(lost) && |lost.queue.jobs| == 1 && lost.queue.jobs[0].status == Running && !InFlight(lost, 0)
  {
    var create, join := OneJobSubmitted();
    OneJobOneAgent(create, join);
    var s := Next(Next(Init(0), create), join);
    var agentId, job := join.event.registration.id, s.queue.jobs[0];
    GivenOutThenLost(s, agentId);
    var run := [create, join, Step(0, Poll(agentId, [job.jobType])), Step(0, Lose(0))];
    FourSteps(Init(0), run);
    lost := Exec(Init(0), run);
  }

  /** A request for a job with two attempts, and a registration. */
  lemma OneJobSubmitted() returns (create: Step, join: Step)
    ensures Enabled(Init(0), create) && create.event.Submit? && create.now == 0
    ensures Enabled(Init(0), join) && join.event.Join? && join.now == 0
    ensures create.event.request.maxRetries == 2
  {
    var request := CreateJobRequest("job", "wait", Some(map["duration_seconds" := "1"]), 0, 2);
    var registration := RegisterAgentRequest("agent", "", "", "", "", ["wait"]);
    assert !IsSpace("job"[0]) && !IsSpace("agent"[0]);
    assert AcceptsCreate(request) && AcceptsRegister(registration);
    create, join := Step(0, Submit("job", request)), Step(0, Join(registration));
  }

  lemma TwoSteps(s: Sys, a: Step, b: Step)
    requires WellFormed(s.queue)
    ensures Exec(s, [a, b]) == Next(Next(s, a), b)
  {
    ExecOne(s, a);
    ExecSnoc(s, [a], b);
    assert [a] + [b] == [a, b];
  }

  lemma FourSteps(s: Sys, run: seq<Step>)
    requires WellFormed(s.queue) && |run| == 4
    ensures Exec(s, run) == Next(Next(Next(Next(s, run[0]), run[1]), run[2]), run[3])
  {
    var first, last := [run[0], run[1]], [run[2], run[3]];
    assert run == first + last;
    ExecConcat(s, first, last);
    TwoSteps(s, run[0], run[1]);
    TwoSteps(Exec(s, first), run[2], run[3]);
  }
}
