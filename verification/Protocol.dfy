/**
 * The worker protocol as a state machine: the server, the attempts that workers or the network hold,
 * Events interleave arbitrarily. Each event carries a clock reading of its own; readings are in no particular order,
 * because some handlers read the clock before they wait for the store's lock, and because clocks are set.
 */
module Protocol {
  import opened Wrappers
  import opened Model
  import opened JobQueue
  import opened Requests
  import JobHistory

  /** One successful poll whose result has been neither delivered nor lost. */
  datatype Attempt = Attempt(jobId: string, agentId: string, number: int)

  datatype Sys = Sys(queue: Queue, inflight: seq<Attempt>, threshold: Time)

  datatype Event =
    | Submit(id: string, request: CreateJobRequest)
    | Join(registration: RegisterAgentRequest)
    | Beats(agentId: string)
    | Poll(pollerId: string, capabilities: seq<JobType>)
    | Deliver(k: nat, answer: Answer)  // the k-th attempt in flight reports
    | Lose(k: nat)                     // the worker dies, or a message is lost
    | Revoke(jobId: string)
    | HealthCheck

  datatype Step = Step(now: Time, event: Event)

  /** Requests pass validation, generated job IDs are not empty, and only an attempt in flight reports or is lost. */
  predicate Enabled(s: Sys, step: Step) {
    match step.event
    case Submit(id, r) => id != "" && AcceptsCreate(r)
    case Join(r) => AcceptsRegister(r)
    case Deliver(k, answer) => k < |s.inflight| && AcceptsResult(answer)
    case Lose(k) => k < |s.inflight|
    case _ => true
  }

  /** The store call the event makes. */
  function CallOf(s: Sys, step: Step): Option<Op>
    requires Enabled(s, step)
  {
    match step.event
    case Submit(id, r) => Some(OpCreate(NewJob(r, id, step.now)))
    case Join(r) => Some(OpRegister(NewAgent(r, step.now)))
    case Beats(agentId) => Some(OpBeat(agentId, step.now))
    case Poll(agentId, caps) => Some(OpAssign(agentId, caps, step.now))
    case Deliver(k, answer) => Some(OpComplete(s.inflight[k].jobId, answer, step.now))
    case Lose(_) => None
    case Revoke(id) => Some(OpCancel(id, step.now))
    case HealthCheck => Some(OpSweep(s.threshold, step.now))
  }

  function Without(inflight: seq<Attempt>, k: nat): seq<Attempt>
    requires k < |inflight|
  {
    inflight[..k] + inflight[k + 1..]
  }

  /** A poll that was given a job puts an attempt in flight; a report or a loss takes it out. */
  function InflightAfter(s: Sys, step: Step): seq<Attempt>
    requires Enabled(s, step)
  {
    match step.event
    case Poll(agentId, caps) =>
      var given := Assign(s.queue, agentId, caps, step.now).1;
      if given.Ok? && given.value.Some?
      then s.inflight + [Attempt(given.value.value.id, agentId, given.value.value.attemptCount)]
      else s.inflight
    case Deliver(k, _) => Without(s.inflight, k)
    case Lose(k) => Without(s.inflight, k)
    case _ => s.inflight
  }

  /** One step; an event that is not enabled changes nothing. */
  ghost function Next(s: Sys, step: Step): (s': Sys)
    requires WellFormed(s.queue)
    ensures WellFormed(s'.queue)
  {
    if !Enabled(s, step) then s
    else
      var call := CallOf(s, step);
      Sys(if call.Some? then Apply(s.queue, call.value).0 else s.queue, InflightAfter(s, step), s.threshold)
  }

  ghost function Exec(s: Sys, run: seq<Step>): (s': Sys)
    requires WellFormed(s.queue)
    ensures WellFormed(s'.queue)
  {
    if run == [] then s else Next(Exec(s, run[..|run| - 1]), run[|run| - 1])
  }

  function Init(threshold: Time): Sys {
    Sys(Queue([], map[]), [], threshold)
  }

  ghost predicate Reachable(s: Sys) {
    exists threshold, run :: s == Exec(Init(threshold), run)
  }

  // ---- The invariant ----

  ghost predicate JobOk(s: Sys, job: Job) {
    && job.id != "" && 0 <= job.maxRetries && 0 <= job.attemptCount <= Budget(job)
    && (job.status == Pending ==>
          job.attemptCount < Budget(job) && job.assignedAgentId == "" && job.startedAt == None)
    && (job.status == Running ==>
          1 <= job.attemptCount && job.assignedAgentId in s.queue.agents && job.startedAt.Some?)
    && (job.status == Success ==> 1 <= job.attemptCount && job.startedAt.Some?)
    && (job.status == Failed ==> job.attemptCount == Budget(job) && job.startedAt.Some?)
    && (job.status.IsTerminal() ==> job.finishedAt.Some?)
    && (job.status.IsTerminal() || job.status == Pending || job.status == Running)
  }

  /** The attempt is the latest one of an existing job that is RUNNING or was canceled meanwhile. */
  ghost predicate AttemptOk(s: Sys, a: Attempt) {
    var k := Find(s.queue.jobs, a.jobId);
    && k < |s.queue.jobs|
    && var job := s.queue.jobs[k];
    && (job.status == Running || job.status == Canceled)
    && job.assignedAgentId == a.agentId && a.agentId in s.queue.agents
    && job.attemptCount == a.number && 1 <= a.number && job.startedAt.Some?
  }

  ghost predicate OneAttemptPerJob(inflight: seq<Attempt>) {
    forall a, b | 0 <= a < b < |inflight| :: inflight[a].jobId != inflight[b].jobId
  }

  ghost predicate JobsOk(s: Sys) {
    forall k | 0 <= k < |s.queue.jobs| :: JobOk(s, s.queue.jobs[k])
  }

  ghost predicate AttemptsOk(s: Sys) {
    && OneAttemptPerJob(s.inflight)
    && forall a | 0 <= a < |s.inflight| :: AttemptOk(s, s.inflight[a])
  }

  ghost predicate Inv(s: Sys) {
    WellFormed(s.queue) && JobsOk(s) && AttemptsOk(s)
  }

  /** An attempt of the job with this ID is in flight. */
  ghost predicate Outstanding(inflight: seq<Attempt>, id: string) {
    exists a :: 0 <= a < |inflight| && inflight[a].jobId == id
  }

  /** Job `k` has an attempt in flight. */
  ghost predicate InFlight(s: Sys, k: nat)
    requires k < |s.queue.jobs|
  {
    Outstanding(s.inflight, s.queue.jobs[k].id)
  }

  // ---- Every step keeps the invariant ----

  lemma AgentsStayRegistered(q: Queue, op: Op)
    requires WellFormed(q)
    ensures q.agents.Keys <= Apply(q, op).0.agents.Keys
  {
  }

  /** The state may move on around an unchanged job. */
  predicate Later(s: Sys, s': Sys) {
    s.queue.agents.Keys <= s'.queue.agents.Keys
  }

  lemma StepIsLater(s: Sys, step: Step)
    requires WellFormed(s.queue) && Enabled(s, step)
    ensures Later(s, Next(s, step))
  {
    if CallOf(s, step).Some? {
      AgentsStayRegistered(s.queue, CallOf(s, step).value);
    }
  }

  /** What a call does to a job keeps it in order, given what is known of a job that gets a result. */
  lemma JobAfterOk(s: Sys, s': Sys, op: Op, k: nat)
    requires k < |s.queue.jobs| && JobOk(s, s.queue.jobs[k]) && Later(s, s')
    requires op.OpComplete? && op.jobId == s.queue.jobs[k].id ==>
      var job := s.queue.jobs[k];
      && AcceptsResult(op.answer) && (job.status == Running || job.status == Canceled)
      && 1 <= job.attemptCount && job.startedAt.Some?
    ensures JobOk(s', JobAfter(s.queue, op, k))
  {
  }

  /** One job through one step, from the job's own point of view. */
  lemma JobStaysOk(s: Sys, step: Step, k: nat)
    requires Inv(s) && Enabled(s, step) && CallOf(s, step).Some? && k < |s.queue.jobs|
    ensures JobOk(Next(s, step), JobAfter(s.queue, CallOf(s, step).value, k))
  {
    StepIsLater(s, step);
    if step.event.Deliver? && s.inflight[step.event.k].jobId == s.queue.jobs[k].id {
      assert AttemptOk(s, s.inflight[step.event.k]);
      FindAt(s.queue.jobs, k);
    }
    JobAfterOk(s, Next(s, step), CallOf(s, step).value, k);
  }

  lemma StepKeepsJobs(s: Sys, step: Step)
    requires Inv(s) && Enabled(s, step)
    ensures JobsOk(Next(s, step))
  {
    var s' := Next(s, step);
    var call := CallOf(s, step);
    if call.Some? {
      EachJobAfter(s.queue, call.value);
    }
    forall k | 0 <= k < |s'.queue.jobs|
      ensures JobOk(s', s'.queue.jobs[k])
    {
      if k < |s.queue.jobs| {
        if call.Some? {
          JobStaysOk(s, step, k);
        } else {
          assert JobOk(s, s.queue.jobs[k]);
        }
      }
    }
  }

  /** An attempt other than the one that reports is not affected by the step. */
  lemma StepKeepsAttempt(s: Sys, step: Step, a: nat)
    requires Inv(s) && Enabled(s, step) && a < |s.inflight|
    requires step.event.Deliver? ==> a != step.event.k
    ensures AttemptOk(Next(s, step), s.inflight[a])
  {
    var s' := Next(s, step);
    var call := CallOf(s, step);
    assert AttemptOk(s, s.inflight[a]);
    var k := Find(s.queue.jobs, s.inflight[a].jobId);
    if call.Some? {
      EachJobAfter(s.queue, call.value);
      AgentsStayRegistered(s.queue, call.value);
      if step.event.Deliver? {
        var b := step.event.k;
        assert s.inflight[b].jobId != s.inflight[a].jobId;
      }
      assert s'.queue.jobs[k].id == s.inflight[a].jobId;
      FindAt(s'.queue.jobs, k);
    }
  }

  lemma WithoutKeepsOnePerJob(inflight: seq<Attempt>, k: nat)
    requires OneAttemptPerJob(inflight) && k < |inflight|
    ensures OneAttemptPerJob(Without(inflight, k))
    ensures forall a | 0 <= a < |inflight| - 1 :: Without(inflight, k)[a] == inflight[if a < k then a else a + 1]
  {
  }

  lemma TakingOutKeepsAttempts(s: Sys, step: Step)
    requires Inv(s) && Enabled(s, step) && (step.event.Deliver? || step.event.Lose?)
    ensures AttemptsOk(Next(s, step))
  {
    var s', k := Next(s, step), step.event.k;
    WithoutKeepsOnePerJob(s.inflight, k);
    forall a | 0 <= a < |s'.inflight|
      ensures AttemptOk(s', s'.inflight[a])
    {
      StepKeepsAttempt(s, step, if a < k then a else a + 1);
    }
  }

  lemma StepKeepsAttempts(s: Sys, step: Step)
    requires Inv(s) && Enabled(s, step)
    ensures AttemptsOk(Next(s, step))
  {
    if step.event.Deliver? || step.event.Lose? {
      TakingOutKeepsAttempts(s, step);
    } else {
      forall a | 0 <= a < |s.inflight|
        ensures AttemptOk(Next(s, step), s.inflight[a])
      {
        StepKeepsAttempt(s, step, a);
      }
      if step.event.Poll? {
        PollStartsOneAttempt(s, step);
      }
    }
  }

  /** The job given out had no attempt in flight, and the new attempt is its current one. */
  lemma PollStartsOneAttempt(s: Sys, step: Step)
    requires Inv(s) && Enabled(s, step) && step.event.Poll?
    ensures var s' := Next(s, step);
      s'.inflight != s.inflight ==>
        && |s'.inflight| == |s.inflight| + 1 && s'.inflight[..|s.inflight|] == s.inflight
        && AttemptOk(s', s'.inflight[|s.inflight|])
        && forall a | 0 <= a < |s.inflight| :: s.inflight[a].jobId != s'.inflight[|s.inflight|].jobId
  {
    var s' := Next(s, step);
    var q := s.queue;
    if s'.inflight != s.inflight {
      var k := FirstMatch(q.jobs, CapSet(step.event.capabilities));
      EachJobAfter(q, CallOf(s, step).value);
      assert s'.queue.jobs[k].id == q.jobs[k].id;
      FindAt(q.jobs, k);
      FindAt(s'.queue.jobs, k);
      forall a | 0 <= a < |s.inflight|
        ensures s.inflight[a].jobId != q.jobs[k].id
      {
        assert AttemptOk(s, s.inflight[a]);
      }
    }
  }

  lemma InvNext(s: Sys, step: Step)
    requires Inv(s)
    ensures Inv(Next(s, step))
  {
    if Enabled(s, step) {
      StepKeepsJobs(s, step);
      StepKeepsAttempts(s, step);
    }
  }

  lemma {:induction false} InvExec(s: Sys, run: seq<Step>)
    requires Inv(s)
    ensures Inv(Exec(s, run))
  {
    if run != [] {
      InvExec(s, run[..|run| - 1]);
      InvNext(Exec(s, run[..|run| - 1]), run[|run| - 1]);
    }
  }

  /** Every reachable state satisfies the invariant. */
  lemma ReachableInv(s: Sys)
    requires Reachable(s)
    ensures Inv(s)
  {
    var threshold, run :| s == Exec(Init(threshold), run);
    InvExec(Init(threshold), run);
  }

  // ---- Runs ----

  /** The store calls of a run, in order. */
  ghost function Calls(s: Sys, run: seq<Step>): seq<Op>
    requires WellFormed(s.queue)
  {
    if run == [] then []
    else
      var n := |run| - 1;
      var before := Exec(s, run[..n]);
      Calls(s, run[..n]) +
      if Enabled(before, run[n]) && CallOf(before, run[n]).Some? then [CallOf(before, run[n]).value] else []
  }

  /** A run of the protocol is a sequence of store calls, so what holds of all callers holds of it. */
  lemma {:induction false} RunIsReplay(s: Sys, run: seq<Step>)
    requires WellFormed(s.queue)
    ensures Exec(s, run).queue == Replay(s.queue, Calls(s, run))
  {
    if run != [] {
      var n := |run| - 1;
      RunIsReplay(s, run[..n]);
      var before, calls := Exec(s, run[..n]), Calls(s, run);
      if Enabled(before, run[n]) && CallOf(before, run[n]).Some? {
        assert calls[..|calls| - 1] == Calls(s, run[..n]);
      } else {
        assert calls == Calls(s, run[..n]);
      }
    }
  }

  lemma ExecSnoc(s: Sys, run: seq<Step>, step: Step)
    requires WellFormed(s.queue)
    ensures Exec(s, run + [step]) == Next(Exec(s, run), step)
  {
    assert (run + [step])[..|run|] == run;
  }

  lemma ExecOne(s: Sys, step: Step)
    requires WellFormed(s.queue)
    ensures Exec(s, [step]) == Next(s, step)
  {
    ExecSnoc(s, [], step);
    assert [] + [step] == [step];
  }

  lemma {:induction false} ExecConcat(s: Sys, a: seq<Step>, b: seq<Step>)
    requires WellFormed(s.queue)
    ensures Exec(s, a + b) == Exec(Exec(s, a), b)
  {
    if b == [] {
      assert a + b == a;
    } else {
      var n := |b| - 1;
      ExecConcat(s, a, b[..n]);
      assert (a + b)[..|a + b| - 1] == a + b[..n];
    }
  }

  lemma {:induction false} ThresholdKept(s: Sys, run: seq<Step>)
    requires WellFormed(s.queue)
    ensures Exec(s, run).threshold == s.threshold
  {
    if run != [] {
      ThresholdKept(s, run[..|run| - 1]);
    }
  }

  /** Jobs keep their position and request along a run. */
  lemma RunKeepsJobs(s: Sys, run: seq<Step>)
    requires WellFormed(s.queue)
    ensures var jobs := Exec(s, run).queue.jobs;
      && |s.queue.jobs| <= |jobs|
      && forall k | 0 <= k < |s.queue.jobs| :: JobHistory.SameRequest(s.queue.jobs[k], jobs[k])
  {
    RunIsReplay(s, run);
    JobHistory.OrderOnlyGrows(s.queue, Calls(s, run));
  }
}
