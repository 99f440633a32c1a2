/** Draining a store by any number of agents: when nothing is left to do, and how many polls it takes. */
module Draining {
  import opened Wrappers
  import opened Model
  import opened JobQueue
  import opened Protocol
  import opened Finality
  import opened Liveness

  ghost predicate NotAbandoned(s: Sys, k: nat) {
    k < |s.queue.jobs| && s.queue.jobs[k].status == Running ==> InFlight(s, k)
  }

  /** Every RUNNING job has its attempt in flight. */
  ghost predicate NoneAbandoned(s: Sys) {
    forall k: nat :: NotAbandoned(s, k)
  }

  predicate Lossless(run: seq<Step>) {
    forall n | 0 <= n < |run| :: !run[n].event.Lose?
  }

  /** Without losses a RUNNING job always has its attempt in flight. */
  lemma {:induction false} RunningMeansInFlight(s: Sys, run: seq<Step>, k: nat)
    requires Inv(s) && NotAbandoned(s, k) && Lossless(run)
    ensures NotAbandoned(Exec(s, run), k)
  {
    if run != [] {
      var n := |run| - 1;
      var before := Exec(s, run[..n]);
      RunningMeansInFlight(s, run[..n], k);
      InvExec(s, run[..n]);
      if k < |before.queue.jobs| {
        StepOfJob(before, run[n], k);
        StepOfAttempt(before, run[n], k);
      } else if k < |Exec(s, run).queue.jobs| {
        NewJobOfStep(before, run[n], k);
      }
    }
  }

  /**
   * However many agents share the work: when a run without losses has nothing in flight, a poll for some types
   * finds nothing exactly if every job of these types is terminal.
   */
  lemma AgentsDrainTogether(threshold: Time, run: seq<Step>, caps: seq<JobType>)
    requires Lossless(run) && Exec(Init(threshold), run).inflight == []
    ensures var jobs := Exec(Init(threshold), run).queue.jobs;
      FirstMatch(jobs, CapSet(caps)) == |jobs|
      <==> forall k | 0 <= k < |jobs| && jobs[k].jobType in caps :: jobs[k].status.IsTerminal()
  {
    var s := Exec(Init(threshold), run);
    InvExec(Init(threshold), run);
    forall k | 0 <= k < |s.queue.jobs|
      ensures s.queue.jobs[k].status.IsTerminal() || s.queue.jobs[k].status == Pending
    {
      assert JobOk(s, s.queue.jobs[k]);
      RunningMeansInFlight(Init(threshold), run, k);
    }
  }

  // ---- How soon they are done ----

  /** Attempts the job can still use, if it is of these types. */
  function Left(types: set<JobType>): Job -> int {
    (job: Job) => if job.jobType in types && job.status != Success then Remaining(job) else 0
  }

  /** Attempts left to the first `n` jobs that are of these types. */
  function AttemptsLeft(s: Sys, n: nat, types: set<JobType>): int
    requires n <= |s.queue.jobs|
  {
    Sum(s.queue.jobs[..n], Left(types))
  }

  /** A registered agent polls for exactly these types while no job of them is in flight. */
  ghost predicate IdlePoll(s: Sys, step: Step, types: set<JobType>) {
    && Enabled(s, step) && step.event.Poll? && step.event.pollerId in s.queue.agents
    && CapSet(step.event.capabilities) == types
    && forall k | 0 <= k < |s.queue.jobs| && s.queue.jobs[k].jobType in types :: !InFlight(s, k)
  }

  ghost function IdlePolls(s: Sys, run: seq<Step>, types: set<JobType>): nat
    requires WellFormed(s.queue)
  {
    if run == [] then 0
    else
      var n := |run| - 1;
      IdlePolls(s, run[..n], types) + if IdlePoll(Exec(s, run[..n]), run[n], types) then 1 else 0
  }

  /** From position `n` on there are no jobs of these types. */
  predicate NoneFrom(jobs: seq<Job>, n: nat, types: set<JobType>) {
    forall k | n <= k < |jobs| :: jobs[k].jobType !in types
  }

  /** Every job of these types is terminal and stays so. */
  ghost predicate Drained(s: Sys, types: set<JobType>) {
    forall k | 0 <= k < |s.queue.jobs| && s.queue.jobs[k].jobType in types ::
      s.queue.jobs[k].status.IsTerminal() && !InFlight(s, k)
  }

  lemma DrainedStep(s: Sys, step: Step, n: nat, types: set<JobType>)
    requires Inv(s) && Drained(s, types) && n <= |s.queue.jobs| && NoneFrom(Next(s, step).queue.jobs, n, types)
    ensures Drained(Next(s, step), types)
  {
    var s' := Next(s, step);
    forall k | 0 <= k < |s'.queue.jobs| && s'.queue.jobs[k].jobType in types
      ensures s'.queue.jobs[k].status.IsTerminal() && !InFlight(s', k)
    {
      StepOfJob(s, step, k);
      SettledStep(s, step, k);
    }
  }

  /** One job through one step: its attempts do not grow, and a hand-out uses one. */
  lemma LeftStep(s: Sys, step: Step, k: nat, types: set<JobType>)
    requires Inv(s) && k < |s.queue.jobs|
    ensures k < |Next(s, step).queue.jobs| && Next(s, step).queue.jobs[k].jobType == s.queue.jobs[k].jobType
    ensures var left, left' := Left(types)(s.queue.jobs[k]), Left(types)(Next(s, step).queue.jobs[k]);
      left' + (if GivesOut(s, step, k) && s.queue.jobs[k].jobType in types then 1 else 0) <= left
  {
    StepOfJob(s, step, k);
    assert JobOk(s, s.queue.jobs[k]);
    if Reports(s, step, k) {
      ReportMeansInFlight(s, step, k);
    }
  }

  lemma LeftDoesNotGrow(s: Sys, step: Step, n: nat, types: set<JobType>)
    requires Inv(s) && n <= |s.queue.jobs|
    ensures n <= |Next(s, step).queue.jobs|
    ensures forall k | 0 <= k < n ::
      Left(types)(Next(s, step).queue.jobs[..n][k]) <= Left(types)(s.queue.jobs[..n][k])
    ensures AttemptsLeft(Next(s, step), n, types) <= AttemptsLeft(s, n, types)
  {
    var s' := Next(s, step);
    RunKeepsJobs(s, [step]);
    ExecOne(s, step);
    forall k | 0 <= k < n
      ensures Left(types)(s'.queue.jobs[..n][k]) <= Left(types)(s.queue.jobs[..n][k])
    {
      LeftStep(s, step, k, types);
    }
    SumDoesNotGrow(s.queue.jobs[..n], s'.queue.jobs[..n], Left(types));
  }

  lemma HandOutSpends(s: Sys, step: Step, n: nat, types: set<JobType>, k: nat)
    requires Inv(s) && k < n <= |s.queue.jobs| && GivesOut(s, step, k) && s.queue.jobs[k].jobType in types
    ensures n <= |Next(s, step).queue.jobs|
    ensures AttemptsLeft(Next(s, step), n, types) + 1 <= AttemptsLeft(s, n, types)
  {
    LeftDoesNotGrow(s, step, n, types);
    LeftStep(s, step, k, types);
    SumFalls(s.queue.jobs[..n], Next(s, step).queue.jobs[..n], k, 1, Left(types));
  }

  /** A poll while nothing of the types is in flight uses up an attempt, or finds that everything is done. */
  lemma IdlePollSpends(s: Sys, step: Step, n: nat, types: set<JobType>)
    requires Inv(s) && n <= |s.queue.jobs| && NoneFrom(s.queue.jobs, n, types) && NoneAbandoned(s)
    ensures n <= |Next(s, step).queue.jobs|
    ensures Drained(s, types)
      || AttemptsLeft(Next(s, step), n, types) + (if IdlePoll(s, step, types) then 1 else 0)
           <= AttemptsLeft(s, n, types)
  {
    LeftDoesNotGrow(s, step, n, types);
    if IdlePoll(s, step, types) {
      var i := FirstMatch(s.queue.jobs, types);
      if i < |s.queue.jobs| {
        assert s.queue.jobs[i].jobType in types;
        HandOutSpends(s, step, n, types, i);
      } else {
        NothingToPoll(s, types);
      }
    }
  }

  lemma NothingToPoll(s: Sys, types: set<JobType>)
    requires Inv(s) && FirstMatch(s.queue.jobs, types) == |s.queue.jobs| && NoneAbandoned(s)
    requires forall k | 0 <= k < |s.queue.jobs| && s.queue.jobs[k].jobType in types :: !InFlight(s, k)
    ensures Drained(s, types)
  {
    forall k | 0 <= k < |s.queue.jobs| && s.queue.jobs[k].jobType in types
      ensures s.queue.jobs[k].status.IsTerminal()
    {
      assert JobOk(s, s.queue.jobs[k]) && NotAbandoned(s, k) && !Matches(s.queue.jobs[k], types);
    }
  }

  ghost predicate Spent(s: Sys, s': Sys, polls: nat, types: set<JobType>) {
    var n := |s.queue.jobs|;
    n <= |s'.queue.jobs| && (Drained(s', types) || polls + AttemptsLeft(s', n, types) <= AttemptsLeft(s, n, types))
  }

  lemma SpentStep(s: Sys, before: Sys, step: Step, polls: nat, types: set<JobType>)
    requires Inv(before) && NoneAbandoned(before) && Spent(s, before, polls, types)
    requires NoneFrom(Next(before, step).queue.jobs, |s.queue.jobs|, types)
    ensures Spent(s, Next(before, step), polls + (if IdlePoll(before, step, types) then 1 else 0), types)
  {
    var n := |s.queue.jobs|;
    EarlierNoneFrom(before, step, n, types);
    if Drained(before, types) {
      LeftDoesNotGrow(before, step, n, types);
      DrainedStep(before, step, n, types);
    } else {
      IdlePollSpends(before, step, n, types);
    }
  }

  lemma {:induction false} IdlePollsAreSpent(s: Sys, run: seq<Step>, types: set<JobType>)
    requires Inv(s) && Lossless(run) && NoneAbandoned(s)
    requires NoneFrom(Exec(s, run).queue.jobs, |s.queue.jobs|, types)
    ensures Spent(s, Exec(s, run), IdlePolls(s, run, types), types)
  {
    if run != [] {
      var m := |run| - 1;
      var before := Exec(s, run[..m]);
      InvExec(s, run[..m]);
      EarlierNoneFrom(before, run[m], |s.queue.jobs|, types);
      IdlePollsAreSpent(s, run[..m], types);
      NoneBecomesAbandoned(s, run[..m]);
      SpentStep(s, before, run[m], IdlePolls(s, run[..m], types), types);
    }
  }

  lemma NoneBecomesAbandoned(s: Sys, run: seq<Step>)
    requires Inv(s) && Lossless(run) && NoneAbandoned(s)
    ensures NoneAbandoned(Exec(s, run))
  {
    forall k: nat
      ensures NotAbandoned(Exec(s, run), k)
    {
      RunningMeansInFlight(s, run, k);
    }
  }

  lemma EarlierNoneFrom(s: Sys, step: Step, n: nat, types: set<JobType>)
    requires WellFormed(s.queue) && NoneFrom(Next(s, step).queue.jobs, n, types)
    ensures NoneFrom(s.queue.jobs, n, types)
  {
    RunKeepsJobs(s, [step]);
    ExecOne(s, step);
  }

  /**
   * However many agents share the work: in a run without losses and without new jobs of some types, once more polls
   * for them were made with none of them in flight than their jobs had attempts left, every job of these types is
   * terminal, and stays so.
   */
  lemma DrainBound(s: Sys, run: seq<Step>, types: set<JobType>)
    requires Reachable(s) && Lossless(run) && NoneAbandoned(s)
    requires NoneFrom(Exec(s, run).queue.jobs, |s.queue.jobs|, types)
    requires IdlePolls(s, run, types) > AttemptsLeft(s, |s.queue.jobs|, types)
    ensures Drained(Exec(s, run), types)
  {
    ReachableInv(s);
    IdlePollsAreSpent(s, run, types);
    InvExec(s, run);
    var jobs, n := Exec(s, run).queue.jobs, |s.queue.jobs|;
    forall k | 0 <= k < n
      ensures 0 <= Left(types)(jobs[..n][k])
    {
      assert JobOk(Exec(s, run), jobs[k]);
    }
    SumIsNonnegative(jobs[..n], Left(types));
  }

  /** What the next lemma's agents do: three polls, of which two find nothing, and then a FAILED result. */
  lemma FailsAfterVainPolls(s: Sys, agentId: string)
    requires Inv(s) && |s.queue.jobs| == 1 && s.queue.jobs[0].status == Pending && agentId in s.queue.agents
    requires s.inflight == [] && s.queue.jobs[0].attemptCount + 1 < s.queue.jobs[0].maxRetries
    ensures var poll := Step(0, Poll(agentId, [s.queue.jobs[0].jobType]));
      var given := Next(s, poll);
      var failed := Next(given, Step(0, Deliver(0, Answer(Failed, [], None, ""))));
      && Next(given, poll) == given && |given.queue.jobs| == 1 && given.queue.jobs[0].jobType == s.queue.jobs[0].jobType
      && agentId in given.queue.agents
      && failed.inflight == [] && |failed.queue.jobs| == 1 && failed.queue.jobs[0].status == Pending
  {
    var poll := Step(0, Poll(agentId, [s.queue.jobs[0].jobType]));
    var given := Next(s, poll);
    assert Matches(s.queue.jobs[0], CapSet([s.queue.jobs[0].jobType]));
    StepOfJob(s, poll, 0);
    EachJobAfter(s.queue, CallOf(s, poll).value);
    assert FirstMatch(given.queue.jobs, CapSet([s.queue.jobs[0].jobType])) == 1;
    var late := Step(0, Deliver(0, Answer(Failed, [], None, "")));
    assert Reports(given, late, 0);
    StepOfJob(given, late, 0);
    EachJobAfter(given.queue, CallOf(given, late).value);
  }

  /**
   * Polls while an attempt is out do not count: here more compatible polls than attempts left were made, nothing
   * was lost or created, nothing is in flight, and yet the job is PENDING.
   */
  lemma VainPollsDoNotDrain() returns (s: Sys, run: seq<Step>)
    ensures Reachable(s) && |s.queue.jobs| == 1 && Lossless(run) && NoneAbandoned(s)
    ensures CompatiblePolls(s, run, 0) > Remaining(s.queue.jobs[0])
    ensures var s' := Exec(s, run); s'.inflight == [] && |s'.queue.jobs| == 1 && s'.queue.jobs[0].status == Pending
  {
    var agentId;
    s, agentId := OneJobReady();
    ReachableInv(s);
    var poll := Step(0, Poll(agentId, [s.queue.jobs[0].jobType]));
    FailsAfterVainPolls(s, agentId);
    run := [poll, poll, poll, Step(0, Deliver(0, Answer(Failed, [], None, "")))];
    FourSteps(s, run);
    PollsCounted(s, run, poll);
  }

  /** A store with one agent and one PENDING job with two attempts. */
  lemma OneJobReady() returns (s: Sys, agentId: string)
    ensures Reachable(s) && NoneAbandoned(s) && s.inflight == [] && agentId in s.queue.agents && |s.queue.jobs| == 1
    ensures var job := s.queue.jobs[0];
      job.status == Pending && job.attemptCount == 0 && job.maxRetries == 2 && Remaining(job) == 2
  {
    var create, join := OneJobSubmitted();
    OneJobOneAgent(create, join);
    TwoSteps(Init(0), create, join);
    s := Exec(Init(0), [create, join]);
    agentId := join.event.registration.id;
  }

  lemma PollsCounted(s: Sys, run: seq<Step>, poll: Step)
    requires WellFormed(s.queue) && |run| == 4 && run[0] == run[1] == run[2] == poll
    requires CompatiblePoll(s, poll, 0) && CompatiblePoll(Next(s, poll), poll, 0)
    requires Next(Next(s, poll), poll) == Next(s, poll)
    ensures CompatiblePolls(s, run, 0) >= 3
  {
    var one, two := [poll], [poll, poll];
    ExecOne(s, poll);
    TwoSteps(s, poll, poll);
    PollCounted(s, [], one, poll);
    PollCounted(s, one, two, poll);
    PollCounted(s, two, run[..3], poll);
  }

  lemma PollCounted(s: Sys, run: seq<Step>, run': seq<Step>, poll: Step)
    requires WellFormed(s.queue) && run' == run + [poll] && CompatiblePoll(Exec(s, run), poll, 0)
    ensures CompatiblePolls(s, run', 0) == CompatiblePolls(s, run, 0) + 1
  {
    assert run'[..|run|] == run;
  }
}
