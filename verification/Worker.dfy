/** The agent's poll loop against the server's handlers. */
module Worker {
  import opened Wrappers
  import opened Model
  import opened JobQueue
  import opened CallEffects
  import opened Requests
  import opened Handlers
  import opened Liveness
  import opened Timeouts
  import Protocol

  /** What the executors answer: any function of the round, the job and the timeout. */
  type Executor = (nat, Job, int) -> Answer

  ghost predicate Answers(exec: Executor) {
    forall n, job, timeout :: AcceptsResult(exec(n, job, timeout))
  }

  // ---- One round on the abstract store ----

  /** Attempts the worker can still be given: those left to the PENDING jobs of its types. */
  function Offer(capSet: set<JobType>): Job -> int {
    (job: Job) => if Matches(job, capSet) then Remaining(job) else 0
  }

  function Offered(jobs: seq<Job>, caps: seq<JobType>): int {
    Sum(jobs, Offer(CapSet(caps)))
  }

  lemma NextIsFirstMatch(jobs: seq<Job>, caps: seq<JobType>, k: nat)
    ensures IsNext(jobs, caps, k) <==> k == FirstMatch(jobs, CapSet(caps)) < |jobs|
  {
    var first := FirstMatch(jobs, CapSet(caps));
    assert forall i | 0 <= i < first :: !Matches(jobs[i], CapSet(caps));
    if first < |jobs| {
      assert Matches(jobs[first], CapSet(caps));
    }
    if IsNext(jobs, caps, k) {
      assert Matches(jobs[k], CapSet(caps));
    }
  }

  /** Of the worker's types there are only terminal jobs and PENDING ones with attempts left. */
  ghost predicate Drainable(jobs: seq<Job>, caps: seq<JobType>) {
    forall k | 0 <= k < |jobs| && jobs[k].jobType in caps :: DrainableJob(jobs[k])
  }

  predicate DrainableJob(job: Job) {
    job.status.IsTerminal() || (job.status == Pending && job.id != "" && 0 <= job.attemptCount < Budget(job))
  }

  /** A reachable state in which no job of these types is RUNNING is drainable. */
  lemma ReachableIsDrainable(s: Protocol.Sys, caps: seq<JobType>)
    requires Protocol.Reachable(s)
    requires forall k | 0 <= k < |s.queue.jobs| && s.queue.jobs[k].jobType in caps :: s.queue.jobs[k].status != Running
    ensures Drainable(s.queue.jobs, caps)
  {
    Protocol.ReachableInv(s);
    forall k | 0 <= k < |s.queue.jobs| && s.queue.jobs[k].jobType in caps
      ensures DrainableJob(s.queue.jobs[k])
    {
      assert Protocol.JobOk(s, s.queue.jobs[k]);
    }
  }

  /** The store after the worker was given job `k` and its answer was delivered. */
  function AfterRound(q: Queue, k: nat, agentId: string, answer: Answer, polled: Time, answered: Time): Queue
    requires k < |q.jobs|
  {
    q.(jobs := q.jobs[k := Completed(Assigned(q.jobs[k], agentId, polled), answer, answered)])
  }

  /** Polling and then delivering the answer is one round. */
  lemma RoundIsPollThenResult(
    q: Queue, k: nat, agentId: string, caps: seq<JobType>, answer: Answer, polled: Time, answered: Time)
    requires WellFormed(q) && agentId in q.agents && k == FirstMatch(q.jobs, CapSet(caps)) < |q.jobs|
    ensures var given := Assign(q, agentId, caps, polled);
      && given.1 == Ok(Some(Assigned(q.jobs[k], agentId, polled)))
      && Get(given.0, q.jobs[k].id).Some?
      && Complete(given.0, q.jobs[k].id, answer, answered).0 == AfterRound(q, k, agentId, answer, polled, answered)
  {
    UpdatedIsFound(q.jobs, k, Assigned(q.jobs[k], agentId, polled));
    var given := Assign(q, agentId, caps, polled).0;
    assert Complete(given, q.jobs[k].id, answer, answered).0.jobs
        == AfterRound(q, k, agentId, answer, polled, answered).jobs;
  }

  /** A round uses up at least one offered attempt, and exactly one if the answer is FAILED. */
  lemma RoundSpends(q: Queue, k: nat, agentId: string, caps: seq<JobType>, answer: Answer, polled: Time, answered: Time)
    requires k < |q.jobs| && Matches(q.jobs[k], CapSet(caps)) && Drainable(q.jobs, caps) && AcceptsResult(answer)
    ensures var jobs := AfterRound(q, k, agentId, answer, polled, answered).jobs;
      && Drainable(jobs, caps)
      && Offered(jobs, caps) < Offered(q.jobs, caps)
      && (answer.status == Failed ==> Offered(jobs, caps) == Offered(q.jobs, caps) - 1)
  {
    var jobs := AfterRound(q, k, agentId, answer, polled, answered).jobs;
    assert DrainableJob(q.jobs[k]);
    SumChanges(q.jobs, jobs, k, Offer(CapSet(caps)));
  }

  lemma OfferedIsNonnegative(jobs: seq<Job>, caps: seq<JobType>)
    requires Drainable(jobs, caps)
    ensures 0 <= Offered(jobs, caps)
  {
    SumIsNonnegative(jobs, Offer(CapSet(caps)));
  }

  /** When nothing is offered, every job of the worker's types is terminal. */
  lemma NothingOffered(jobs: seq<Job>, caps: seq<JobType>)
    requires Drainable(jobs, caps) && FirstMatch(jobs, CapSet(caps)) == |jobs|
    ensures forall k | 0 <= k < |jobs| && jobs[k].jobType in caps :: jobs[k].status.IsTerminal()
  {
    forall k | 0 <= k < |jobs| && jobs[k].jobType in caps
      ensures jobs[k].status.IsTerminal()
    {
      assert DrainableJob(jobs[k]) && !Matches(jobs[k], CapSet(caps));
    }
  }

  /** What the loop needs of one round. */
  lemma RoundKeeps(
    q: Queue, q': Queue, k: nat, agentId: string, caps: seq<JobType>, answer: Answer, polled: Time, answered: Time)
    requires agentId in q.agents && AcceptsResult(answer) && Drainable(q.jobs, caps)
    requires k == FirstMatch(q.jobs, CapSet(caps)) < |q.jobs|
    requires q.jobs[k].id != "" ==> q' == AfterRound(q, k, agentId, answer, polled, answered)
    ensures agentId in q'.agents && Drainable(q'.jobs, caps) && 0 <= Offered(q'.jobs, caps) < Offered(q.jobs, caps)
    ensures answer.status == Failed ==> Offered(q'.jobs, caps) == Offered(q.jobs, caps) - 1
  {
    assert DrainableJob(q.jobs[k]);
    RoundSpends(q, k, agentId, caps, answer, polled, answered);
    OfferedIsNonnegative(q'.jobs, caps);
  }

  /** Every executor answers with this status. */
  ghost predicate AlwaysAnswers(exec: Executor, status: JobStatus) {
    forall n, job, timeout :: exec(n, job, timeout).status == status
  }

  class Worker {
    const server: Server
    const agentId: string
    const capabilities: seq<JobType>
    const registry: set<JobType>  // the types that have an executor

    constructor (server: Server, agentId: string, capabilities: seq<JobType>, registry: set<JobType>)
      ensures this.server == server && this.agentId == agentId
      ensures this.capabilities == capabilities && this.registry == registry
    {
      this.server, this.agentId, this.capabilities, this.registry := server, agentId, capabilities, registry;
    }

    /** The answer to an attempt: FAILED without an executor, otherwise the executor's, given its timeout. */
    ghost function AnswerTo(exec: Executor, n: nat, job: Job): Answer {
      if job.jobType !in registry
      then Answer(Failed, ["no executor registered for type: " + job.jobType], None, "unsupported job type")
      else exec(n, job, EffectiveTimeout(job.timeoutSeconds))
    }

    /** Nothing was found, or the first compatible job was handed out and its answer recorded, if it is accepted. */
    ghost predicate Round(exec: Executor, n: nat, q: Queue, polled: Time, answered: Time, q': Queue, worked: bool) {
      var k := FirstMatch(q.jobs, CapSet(capabilities));
      if agentId == "" || agentId !in q.agents || k == |q.jobs| then
        !worked && q' == q
      else
        var job := Assigned(q.jobs[k], agentId, polled);
        && worked
        && q' == if job.id == "" || !AcceptsResult(AnswerTo(exec, n, job))
                 then Assign(q, agentId, capabilities, polled).0
                 else AfterRound(q, k, agentId, AnswerTo(exec, n, job), polled, answered)
    }

    /** Poll, execute, submit: at most one result for a poll. `n` numbers the round. */
    method PollAndExecute(exec: Executor, n: nat, polled: Time, answered: Time) returns (worked: bool)
      requires server.store.Valid()
      modifies server.store
      ensures server.store.Valid()
      ensures Round(exec, n, old(server.store.queue), polled, answered, server.store.queue, worked)
    {
      ghost var q := server.store.queue;
      ghost var k := FirstMatch(q.jobs, CapSet(capabilities));
      var response := server.HandleNextJob(agentId, capabilities, polled);
      if response.code != OK || !response.body.JobBody? {
        return false;
      }
      var job := response.body.job;
      RoundIsPollThenResult(q, k, agentId, capabilities, AnswerTo(exec, n, job), polled, answered);
      if job.jobType !in registry {
        var unsupported :=
          Answer(Failed, ["no executor registered for type: " + job.jobType], None, "unsupported job type");
        var refused := server.HandleJobResult(job.id, unsupported, answered);
        return true;
      }
      var timeout := Wrap64(job.timeoutSeconds * SECOND);
      if timeout <= 0 {
        timeout := DEFAULT_TIMEOUT_SECONDS * SECOND;
      }
      var answer := exec(n, job, timeout);
      var submitted := server.HandleJobResult(job.id, answer, answered);
      worked := true;
    }

    /**
     * What a round that worked leaves in the store: the oldest compatible PENDING job was handed out at `polled`, and
     * its record took the executor's answer at `answered`, given the job's timeout; a FAILED one if there is none.
     */
    lemma RoundRecordsTheAnswer(
      exec: Executor, n: nat, q: Queue, polled: Time, answered: Time, q': Queue, worked: bool, k: nat)
      requires Answers(exec) && Round(exec, n, q, polled, answered, q', worked)
      requires agentId != "" && agentId in q.agents && IsNext(q.jobs, capabilities, k) && q.jobs[k].id != ""
      ensures worked && k < |q'.jobs| && q' == Queue(q.jobs[k := q'.jobs[k]], q.agents)
      ensures var seconds := q.jobs[k].timeoutSeconds;
        var given := q.jobs[k].(
          status := Running, assignedAgentId := agentId, startedAt := Some(polled),
          attemptCount := q.jobs[k].attemptCount + 1);
        && (given.jobType in registry && 1 <= seconds <= 9_223_372_036 ==>
              ResultRecorded(given, exec(n, given, seconds * 1_000_000_000), answered, q'.jobs[k]))
        && (given.jobType in registry ==>
              exists timeout :: timeout > 0 && ResultRecorded(given, exec(n, given, timeout), answered, q'.jobs[k]))
        && (given.jobType !in registry ==>
              var refusal := Answer(
                Failed, ["no executor registered for type: " + given.jobType], None, "unsupported job type");
              ResultRecorded(given, refusal, answered, q'.jobs[k]))
    {
      NextIsFirstMatch(q.jobs, capabilities, k);
      var given := Assigned(q.jobs[k], agentId, polled);
      var timeout := EffectiveTimeout(given.timeoutSeconds);
      assert ResultRecorded(given, AnswerTo(exec, n, given), answered, q'.jobs[k]);
    }

    /**
     * What becomes of the jobs the loop found: those it cannot be given are left alone; the others stay PENDING or get
     * the status that every executor answers with, FAILED without an executor.
     */
    ghost predicate Verdicts(exec: Executor, found: seq<Job>, jobs: seq<Job>) {
      && |jobs| == |found|
      && forall k | 0 <= k < |found| ::
           if found[k].status != Pending || found[k].jobType !in capabilities then jobs[k] == found[k]
           else Verdict(exec, found[k].jobType, jobs[k])
    }

    ghost predicate Verdict(exec: Executor, jobType: JobType, job: Job) {
      && job.jobType == jobType && (job.status == Pending || job.status.IsTerminal())
      && (jobType !in registry ==> job.status in {Pending, Failed})
      && (jobType in registry ==> forall v | AlwaysAnswers(exec, v) :: job.status in {Pending, v})
    }

    lemma RoundKeepsVerdicts(
      exec: Executor, n: nat, found: seq<Job>, q: Queue, polled: Time, answered: Time, q': Queue, worked: bool)
      requires Answers(exec) && agentId != "" && agentId in q.agents && Drainable(q.jobs, capabilities)
      requires Verdicts(exec, found, q.jobs) && Round(exec, n, q, polled, answered, q', worked)
      ensures Verdicts(exec, found, q'.jobs)
    {
      var k := FirstMatch(q.jobs, CapSet(capabilities));
      if k < |q.jobs| {
        NextIsFirstMatch(q.jobs, capabilities, k);
        assert DrainableJob(q.jobs[k]);
        RoundRecordsTheAnswer(exec, n, q, polled, answered, q', worked, k);
      }
    }

    /** After `n` ticks, `rounds` of which found work. */
    ghost predicate Progress(exec: Executor, q: Queue, total: int, rounds: nat, n: nat) {
      && agentId != "" && agentId in q.agents && Drainable(q.jobs, capabilities)
      && 0 <= Offered(q.jobs, capabilities) <= total - rounds
      && (AlwaysAnswers(exec, Failed) ==> Offered(q.jobs, capabilities) == total - rounds)
      && rounds <= n && (rounds < n ==> FirstMatch(q.jobs, CapSet(capabilities)) == |q.jobs|)
    }

    lemma RoundProgresses(
      exec: Executor, q: Queue, total: int, rounds: nat, n: nat, polled: Time, answered: Time, q': Queue, worked: bool)
      requires Answers(exec) && Progress(exec, q, total, rounds, n)
      requires Round(exec, n, q, polled, answered, q', worked)
      ensures Progress(exec, q', total, rounds + (if worked then 1 else 0), n + 1)
    {
      if worked {
        var k := FirstMatch(q.jobs, CapSet(capabilities));
        var answer := AnswerTo(exec, n, Assigned(q.jobs[k], agentId, polled));
        RoundKeeps(q, q', k, agentId, capabilities, answer, polled, answered);
      }
    }

    /** With nothing left to poll, every job of the worker's types is terminal and nothing is offered. */
    lemma PollsInVain(exec: Executor, q: Queue, total: int, rounds: nat, n: nat)
      requires Progress(exec, q, total, rounds, n) && rounds < n
      ensures Offered(q.jobs, capabilities) == 0
      ensures forall k | 0 <= k < |q.jobs| && q.jobs[k].jobType in capabilities :: q.jobs[k].status.IsTerminal()
    {
      NothingOffered(q.jobs, capabilities);
      NoMatchOffersNothing(q.jobs, CapSet(capabilities));
    }

    /**
     * Registers and then polls for `ticks` ticks, alone on the server. It finds work at most as often as attempts
     * were offered, exactly as often if every answer is FAILED; after more ticks than that, every job of its types
     * is terminal, and each that was PENDING has the status that every executor answers with, FAILED without one.
     * Other jobs are left alone.
     */
    method Run(exec: Executor, hostname: string, os: string, arch: string, start: Time, clock: nat -> Time, ticks: nat)
      returns (rounds: nat)
      requires server.store.Valid() && Answers(exec) && Drainable(server.store.queue.jobs, capabilities)
      modifies server.store
      ensures server.store.Valid()
      ensures IsBlank(agentId) || capabilities == [] ==> rounds == 0 && server.store.queue == old(server.store.queue)
      ensures rounds <= Offered(old(server.store.queue.jobs), capabilities)
      ensures !IsBlank(agentId) && capabilities != [] ==>
        var total := Offered(old(server.store.queue.jobs), capabilities);
        && (AlwaysAnswers(exec, Failed) ==> rounds == if ticks < total then ticks else total)
        && (ticks > total ==>
              forall k | 0 <= k < |server.store.queue.jobs| && server.store.queue.jobs[k].jobType in capabilities ::
                server.store.queue.jobs[k].status.IsTerminal())
      ensures !IsBlank(agentId) && capabilities != [] ==>
        server.store.queue.agents == old(server.store.queue.agents)[
          agentId := Agent(agentId, hostname, os, arch, "1.0.0", capabilities, start, Online)]
      ensures var found, jobs := old(server.store.queue.jobs), server.store.queue.jobs;
        && |jobs| == |found|
        && (forall k | 0 <= k < |found| && (found[k].status != Pending || found[k].jobType !in capabilities) ::
              jobs[k] == found[k])
        && (ticks > Offered(found, capabilities) && !IsBlank(agentId) ==>
              forall k | 0 <= k < |found| && found[k].status == Pending && found[k].jobType in capabilities ::
                && (found[k].jobType !in registry ==> jobs[k].status == Failed)
                && (found[k].jobType in registry ==> forall v | AlwaysAnswers(exec, v) :: jobs[k].status == v))
    {
      rounds := 0;
      ghost var total := Offered(server.store.queue.jobs, capabilities);
      OfferedIsNonnegative(server.store.queue.jobs, capabilities);
      var registration := RegisterAgentRequest(agentId, hostname, os, arch, "1.0.0", capabilities);
      var registered := server.HandleRegisterAgent(registration, start);
      if registered.code != CREATED {
        return;
      }
      ghost var agents := server.store.queue.agents;
      for n := 0 to ticks
        invariant server.store.queue.agents == agents
        invariant server.store.Valid() && Progress(exec, server.store.queue, total, rounds, n)
        invariant Verdicts(exec, old(server.store.queue.jobs), server.store.queue.jobs)
      {
        ghost var q := server.store.queue;
        var polled, answered := clock(2 * n), clock(2 * n + 1);
        var worked := PollAndExecute(exec, n, polled, answered);
        RoundKeepsVerdicts(
          exec, n, old(server.store.queue.jobs), q, polled, answered, server.store.queue, worked);
        RoundProgresses(exec, q, total, rounds, n, polled, answered, server.store.queue, worked);
        if worked {
          rounds := rounds + 1;
        }
      }
      if rounds < ticks {
        PollsInVain(exec, server.store.queue, total, rounds, ticks);
      }
    }
  }

  lemma {:induction false} NoMatchOffersNothing(jobs: seq<Job>, capSet: set<JobType>)
    requires forall k | 0 <= k < |jobs| :: !Matches(jobs[k], capSet)
    ensures Sum(jobs, Offer(capSet)) == 0
  {
    if jobs != [] {
      NoMatchOffersNothing(jobs[..|jobs| - 1], capSet);
    }
  }
}
