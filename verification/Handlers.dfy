/** The HTTP handlers that drive the store, and what other callers can do between their store calls. */
module Handlers {
  import opened Wrappers
  import opened Model
  import opened JobQueue
  import opened CallEffects
  import opened Requests
  import opened Validation
  import opened MemoryStore
  import opened Protocol
  import opened Finality
  import JobHistory

  const OK := 200
  const CREATED := 201
  const NO_CONTENT := 204
  const BAD_REQUEST := 400
  const NOT_FOUND := 404
  const CONFLICT := 409
  const INTERNAL_ERROR := 500

  datatype Body = Empty | JobBody(job: Job) | AgentBody(agent: Agent)

  datatype Response = Response(code: int, body: Body)

  /** The answer for a job ID that could not be canceled, from the job as it is re-read. */
  function RefusalCode(reread: Option<Job>): int {
    if reread == None then NOT_FOUND
    else if reread.value.status.IsTerminal() then CONFLICT
    else INTERNAL_ERROR
  }

  /** One sweep per tick. */
  function Sweeps(threshold: Time, ticks: seq<Time>): seq<Op> {
    seq(|ticks|, i requires 0 <= i < |ticks| => OpSweep(threshold, ticks[i]))
  }

  /** The agents after these sweeps: marked if seen more than the threshold before one of the ticks. */
  ghost predicate MarkedByTicks(
    agents: map<string, Agent>, threshold: Time, ticks: seq<Time>, now: map<string, Agent>)
  {
    && now.Keys == agents.Keys
    && forall id | id in now :: now[id] == agents[id].(
         status := if exists i :: 0 <= i < |ticks| && agents[id].lastSeen < ticks[i] - threshold then Offline
                   else agents[id].status)
  }

  lemma OneMoreTick(agents: map<string, Agent>, threshold: Time, ticks: seq<Time>, now: map<string, Agent>)
    requires ticks != [] && MarkedByTicks(agents, threshold, ticks[..|ticks| - 1], now)
    ensures MarkedByTicks(agents, threshold, ticks, SweptAgents(now, threshold, ticks[|ticks| - 1]))
  {
    var before, n := ticks[..|ticks| - 1], |ticks| - 1;
    assert forall i | 0 <= i < n :: before[i] == ticks[i];
  }

  lemma SweepsSnoc(threshold: Time, ticks: seq<Time>)
    requires ticks != []
    ensures var n := |ticks| - 1;
      Sweeps(threshold, ticks) == Sweeps(threshold, ticks[..n]) + [OpSweep(threshold, ticks[n])]
  {
  }

  lemma LastSweep(q: Queue, threshold: Time, ticks: seq<Time>)
    requires WellFormed(q) && ticks != []
    ensures var n := |ticks| - 1;
      var before := Replay(q, Sweeps(threshold, ticks[..n]));
      Replay(q, Sweeps(threshold, ticks)) == Queue(before.jobs, SweptAgents(before.agents, threshold, ticks[n]))
  {
    var n := |ticks| - 1;
    var ops, op := Sweeps(threshold, ticks[..n]), OpSweep(threshold, ticks[n]);
    SweepsSnoc(threshold, ticks);
    ReplaySnoc(q, ops, op);
  }

  lemma {:induction false} SweepsMark(q: Queue, threshold: Time, ticks: seq<Time>)
    requires WellFormed(q)
    ensures Replay(q, Sweeps(threshold, ticks)).jobs == q.jobs
    ensures MarkedByTicks(q.agents, threshold, ticks, Replay(q, Sweeps(threshold, ticks)).agents)
  {
    if ticks != [] {
      var n := |ticks| - 1;
      SweepsMark(q, threshold, ticks[..n]);
      LastSweep(q, threshold, ticks);
      OneMoreTick(q.agents, threshold, ticks, Replay(q, Sweeps(threshold, ticks[..n])).agents);
    }
  }

  /** What a poll is answered, in terms of the stored jobs. */
  lemma NextJobIsGiven(q: Queue, agentId: string, caps: seq<JobType>, now: Time)
    ensures var given := Assign(q, agentId, caps, now);
      && (given.1.Err? <==> agentId !in q.agents)
      && (given.1 == Ok(None) <==> agentId in q.agents && NoneNext(q.jobs, caps))
      && (given.1 == Ok(None) || given.1.Err? ==> given.0 == q)
      && forall k | 0 <= k < |q.jobs| && agentId in q.agents && IsNext(q.jobs, caps, k) ::
           var job := q.jobs[k].(
             status := Running, assignedAgentId := agentId, startedAt := Some(now),
             attemptCount := q.jobs[k].attemptCount + 1);
           given == (Queue(q.jobs[k := job], q.agents), Ok(Some(job)))
  {
    var first := FirstMatch(q.jobs, CapSet(caps));
    assert forall i | 0 <= i < first :: !Matches(q.jobs[i], CapSet(caps));
    forall k | 0 <= k < |q.jobs| && IsNext(q.jobs, caps, k)
      ensures k == first
    {
      assert Matches(q.jobs[k], CapSet(caps));
    }
  }

  class Server {
    const store: MemoryStore

    constructor (store: MemoryStore)
      ensures this.store == store
    {
      this.store := store;
    }

    /** `id` is the generated job ID. */
    method HandleCreateJob(request: CreateJobRequest, id: string, now: Time) returns (r: Response)
      requires store.Valid()
      modifies store
      ensures store.Valid()
      ensures !AcceptsCreate(request) ==> r.code == BAD_REQUEST && store.queue == old(store.queue)
      ensures AcceptsCreate(request) && Get(old(store.queue), id).Some? ==>
        r.code == INTERNAL_ERROR && store.queue == old(store.queue)
      ensures AcceptsCreate(request) && Get(old(store.queue), id) == None ==>
        && r == Response(CREATED, JobBody(NewJob(request, id, now)))
        && store.queue == old(store.queue).(jobs := old(store.queue).jobs + [NewJob(request, id, now)])
      ensures r.code == CREATED ==>
        && r.body.JobBody? && var job := r.body.job;
        && store.queue == Queue(old(store.queue.jobs) + [job], old(store.queue.agents))
        && job.id == id && job.name == request.name && job.jobType == request.jobType && job.payload == request.payload
        && job.maxRetries == request.maxRetries && job.createdAt == now
        && job.timeoutSeconds == (if request.timeoutSeconds == 0 then 30 else request.timeoutSeconds)
        && job.status == Pending && job.attemptCount == 0 && job.assignedAgentId == ""
        && job.startedAt == None && job.finishedAt == None && job.logs == [] && job.error == "" && job.result == None
    {
      var req := request;
      var invalid := ValidateCreate(req);
      if invalid != null {
        return Response(BAD_REQUEST, Empty);
      }
      if req.timeoutSeconds == 0 {
        req := req.(timeoutSeconds := DEFAULT_TIMEOUT_SECONDS);
      }
      var job := Job(id, req.name, req.jobType, req.payload, Pending, "", now, None, None, 0, req.maxRetries,
                     req.timeoutSeconds, [], "", None);
      var created := store.CreateJob(job);
      match created
      case Err(_) => r := Response(INTERNAL_ERROR, Empty);
      case Ok(stored) => r := Response(CREATED, JobBody(stored));
    }

    /** Without interleaving: 200, 404 or 409 exactly for a live, an absent or a terminal job. */
    method HandleCancelJob(jobId: string, now: Time) returns (r: Response)
      requires store.Valid()
      modifies store
      ensures store.Valid()
      ensures jobId == "" ==> r.code == BAD_REQUEST && store.queue == old(store.queue)
      ensures jobId != "" ==> store.queue == Cancel(old(store.queue), jobId, now).0
      ensures jobId != "" ==> var job := Get(old(store.queue), jobId);
        && (r.code == NOT_FOUND <==> job == None)
        && (r.code == CONFLICT <==> job.Some? && job.value.status.IsTerminal())
        && (r.code == OK <==> job.Some? && !job.value.status.IsTerminal())
      ensures jobId != "" && r.code != OK ==> store.queue == old(store.queue)
      ensures jobId != "" && r.code == OK ==>
        var jobs, k := old(store.queue.jobs), Find(old(store.queue.jobs), jobId);
        k < |jobs| && store.queue == Queue(
          jobs[k := jobs[k].(status := Canceled, finishedAt := Some(now))], old(store.queue.agents))
    {
      if jobId == "" {
        return Response(BAD_REQUEST, Empty);
      }
      var canceled := store.CancelJob(jobId, now);
      if canceled.Err? {
        var job := store.GetJob(jobId);
        return Response(RefusalCode(job), Empty);
      }
      r := Response(OK, Empty);
    }

    method HandleJobResult(jobId: string, answer: Answer, now: Time) returns (r: Response)
      requires store.Valid()
      modifies store
      ensures store.Valid()
      ensures jobId == "" || !AcceptsResult(answer) ==> r.code == BAD_REQUEST && store.queue == old(store.queue)
      ensures jobId != "" && AcceptsResult(answer) ==>
        && store.queue == Complete(old(store.queue), jobId, answer, now).0
        && (Get(old(store.queue), jobId) == None ==> r.code == NOT_FOUND)
        && (Get(old(store.queue), jobId).Some? ==>
              r == Response(OK, JobBody(Completed(Get(old(store.queue), jobId).value, answer, now))))
      ensures jobId != "" && AcceptsResult(answer) && r.code == OK ==>
        var jobs, k := old(store.queue.jobs), Find(old(store.queue.jobs), jobId);
        && k < |jobs| && r.body.JobBody? && ResultRecorded(jobs[k], answer, now, r.body.job)
        && store.queue == Queue(jobs[k := r.body.job], old(store.queue.agents))
    {
      if jobId == "" {
        return Response(BAD_REQUEST, Empty);
      }
      var invalid := ValidateResult(answer);
      if invalid != null {
        return Response(BAD_REQUEST, Empty);
      }
      var found := store.GetJob(jobId);
      if found == None {
        return Response(NOT_FOUND, Empty);
      }
      ghost var jobs, k := store.queue.jobs, Find(store.queue.jobs, jobId);
      UpdatedIsFound(jobs, k, Completed(jobs[k], answer, now));
      var completed := store.CompleteJob(jobId, answer.status, answer.logs, answer.result, answer.error, now);
      if completed.Err? {
        return Response(INTERNAL_ERROR, Empty);
      }
      var updated := store.GetJob(jobId);
      r := Response(OK, if updated == None then Empty else JobBody(updated.value));
    }

    method HandleNextJob(agentId: string, requested: seq<string>, now: Time) returns (r: Response)
      requires store.Valid()
      modifies store
      ensures store.Valid()
      ensures agentId == "" ==> r.code == BAD_REQUEST && store.queue == old(store.queue)
      ensures agentId != "" ==>
        var given := Assign(old(store.queue), agentId, requested, now);
        store.queue == given.0 && r ==
          match given.1
          case Err(_) => Response(INTERNAL_ERROR, Empty)
          case Ok(None) => Response(NO_CONTENT, Empty)
          case Ok(Some(job)) => Response(OK, JobBody(job))
      ensures agentId != "" ==>
        var q := old(store.queue);
        && (r.code == INTERNAL_ERROR <==> agentId !in q.agents)
        && (r.code == NO_CONTENT <==> agentId in q.agents && NoneNext(q.jobs, requested))
        && (r.code != OK ==> store.queue == q)
        && forall k | 0 <= k < |q.jobs| && agentId in q.agents && IsNext(q.jobs, requested, k) ::
             && r.code == OK && r.body.JobBody? && store.queue == Queue(q.jobs[k := r.body.job], q.agents)
             && r.body.job == q.jobs[k].(
                  status := Running, assignedAgentId := agentId, startedAt := Some(now),
                  attemptCount := q.jobs[k].attemptCount + 1)
    {
      if agentId == "" {
        return Response(BAD_REQUEST, Empty);
      }
      var capabilities: seq<JobType> := [];
      for i := 0 to |requested|
        invariant capabilities == requested[..i]
      {
        capabilities := capabilities + [requested[i]];
      }
      assert requested[..|requested|] == requested;
      NextJobIsGiven(store.queue, agentId, requested, now);
      var given := store.AssignNextJob(agentId, capabilities, now);
      match given
      case Err(_) => r := Response(INTERNAL_ERROR, Empty);
      case Ok(None) => r := Response(NO_CONTENT, Empty);
      case Ok(Some(job)) => r := Response(OK, JobBody(job));
    }

    method HandleRegisterAgent(request: RegisterAgentRequest, now: Time) returns (r: Response)
      requires store.Valid()
      modifies store
      ensures store.Valid()
      ensures !AcceptsRegister(request) ==> r.code == BAD_REQUEST && store.queue == old(store.queue)
      ensures AcceptsRegister(request) ==>
        && r == Response(CREATED, AgentBody(NewAgent(request, now)))
        && store.queue == JobQueue.Register(old(store.queue), NewAgent(request, now))
      ensures AcceptsRegister(request) ==>
        && r.body.AgentBody? && var agent := r.body.agent;
        && store.queue == Queue(old(store.queue.jobs), old(store.queue.agents)[request.id := agent])
        && agent.id == request.id && agent.hostname == request.hostname && agent.os == request.os
        && agent.arch == request.arch && agent.version == request.version
        && agent.capabilities == request.capabilities && agent.lastSeen == now && agent.status == Online
    {
      var invalid := ValidateRegister(request);
      if invalid != null {
        return Response(BAD_REQUEST, Empty);
      }
      var capabilities: seq<JobType> := [];
      for i := 0 to |request.capabilities|
        invariant capabilities == request.capabilities[..i]
      {
        capabilities := capabilities + [request.capabilities[i]];
      }
      assert request.capabilities[..|request.capabilities|] == request.capabilities;
      var agent := Agent(request.id, request.hostname, request.os, request.arch, request.version,
                         capabilities, now, Online);
      var registered := store.RegisterAgent(agent);
      r := Response(CREATED, AgentBody(registered));
    }

    method HandleHeartbeat(agentId: string, now: Time) returns (r: Response)
      requires store.Valid()
      modifies store
      ensures store.Valid()
      ensures agentId == "" ==> r.code == BAD_REQUEST && store.queue == old(store.queue)
      ensures agentId != "" ==>
        && store.queue == Beat(old(store.queue), agentId, now).0
        && r.code == if agentId in old(store.queue).agents then OK else NOT_FOUND
      ensures r.code != OK ==> store.queue == old(store.queue)
      ensures r.code == OK ==>
        var agents := old(store.queue.agents);
        && agentId in agents
        && store.queue == Queue(
             old(store.queue.jobs), agents[agentId := agents[agentId].(lastSeen := now, status := Online)])
    {
      if agentId == "" {
        return Response(BAD_REQUEST, Empty);
      }
      var beat := store.Heartbeat(agentId, now);
      r := Response(if beat.Ok? then OK else NOT_FOUND, Empty);
    }

    /** The health checker's loop: an agent is marked exactly if some tick finds it silent for too long. */
    method RunHealthChecker(threshold: Time, ticks: seq<Time>)
      requires store.Valid()
      modifies store
      ensures store.Valid() && store.queue == Replay(old(store.queue), Sweeps(threshold, ticks))
      ensures store.queue.jobs == old(store.queue.jobs) && store.queue.agents.Keys == old(store.queue.agents.Keys)
      ensures forall id | id in store.queue.agents ::
        var was := old(store.queue.agents)[id];
        store.queue.agents[id] == was.(
          status := if exists i :: 0 <= i < |ticks| && was.lastSeen < ticks[i] - threshold then Offline else was.status)
    {
      ghost var ops := Sweeps(threshold, ticks);
      for i := 0 to |ticks|
        invariant store.Valid() && store.queue == Replay(old(store.queue), ops[..i])
      {
        var count := store.MarkStaleAgentsOffline(threshold, ticks[i]);
        assert ops[..i + 1][..i] == ops[..i];
      }
      assert ops[..|ticks|] == ops;
      SweepsMark(old(store.queue), threshold, ticks);
    }
  }

  // ---- Other callers between the store calls of one handler ----

  /** Once handleJobResult has seen the job, no calls by others make its CompleteJob or its re-fetch miss it. */
  lemma ResultHandlerNeverMisses(q: Queue, before: seq<Op>, after: seq<Op>, id: string, answer: Answer, now: Time)
    requires WellFormed(q) && Get(q, id).Some?
    ensures var completed := Complete(Replay(q, before), id, answer, now);
      completed.1 == Ok(()) && WellFormed(completed.0) && Get(Replay(completed.0, after), id).Some?
  {
    JobHistory.JobsStayFindable(q, before, id);
    var q1 := Replay(q, before);
    assert Apply(q1, OpComplete(id, answer, now)).0 == Complete(q1, id, answer, now).0;
    JobHistory.JobsStayFindable(q1, [OpComplete(id, answer, now)], id);
    assert Replay(q1, [OpComplete(id, answer, now)]) == Complete(q1, id, answer, now).0 by {
      assert [OpComplete(id, answer, now)][..0] == [];
    }
    JobHistory.JobsStayFindable(Complete(q1, id, answer, now).0, after, id);
  }

  /** handleCancelJob after a refused cancel, when a run of other events came before the re-read. */
  ghost function CodeAfter(s: Sys, run: seq<Step>, jobId: string): int
    requires WellFormed(s.queue)
  {
    RefusalCode(Get(Exec(s, run).queue, jobId))
  }

  /** The run creates jobs only under IDs that the generator can produce. */
  predicate UsesGenerated(run: seq<Step>, generated: string -> bool) {
    forall n | 0 <= n < |run| :: run[n].event.Submit? ==> generated(run[n].event.id)
  }

  /** The refused cancel is answered 500 after this run. */
  ghost predicate FailsAfter(s: Sys, run: seq<Step>, jobId: string, generated: string -> bool)
    requires WellFormed(s.queue)
  {
    UsesGenerated(run, generated) && CodeAfter(s, run, jobId) == INTERNAL_ERROR
  }

  lemma AbsentCanBeCreated(s: Sys, jobId: string) returns (run: seq<Step>)
    requires WellFormed(s.queue) && Get(s.queue, jobId) == None && jobId != ""
    ensures CodeAfter(s, run, jobId) == INTERNAL_ERROR
    ensures forall generated: string -> bool :: generated(jobId) ==> UsesGenerated(run, generated)
  {
    var request := CreateJobRequest("job", "wait", Some(map["duration_seconds" := "1"]), 0, 0);
    assert !IsSpace("job"[0]) && AcceptsCreate(request);
    var step := Step(0, Submit(jobId, request));
    run := [step];
    ExecOne(s, step);
    FindAt(Next(s, step).queue.jobs, |s.queue.jobs|);
  }

  /** An ID that the generator cannot produce stays absent. */
  lemma {:induction false} AbsentStaysAbsent(s: Sys, run: seq<Step>, jobId: string, generated: string -> bool)
    requires WellFormed(s.queue) && Get(s.queue, jobId) == None
    requires UsesGenerated(run, generated) && !generated(jobId)
    ensures Get(Exec(s, run).queue, jobId) == None
  {
    if run != [] {
      var n := |run| - 1;
      AbsentStaysAbsent(s, run[..n], jobId, generated);
      AbsentAfterStep(Exec(s, run[..n]), run[n], jobId);
    }
  }

  lemma AbsentAfterStep(s: Sys, step: Step, jobId: string)
    requires WellFormed(s.queue) && Get(s.queue, jobId) == None
    requires step.event.Submit? ==> step.event.id != jobId
    ensures Get(Next(s, step).queue, jobId) == None
  {
    var s' := Next(s, step);
    var k := Find(s'.queue.jobs, jobId);
    if k < |s.queue.jobs| {
      StepOfJob(s, step, k);
    } else if k < |s'.queue.jobs| {
      NewJobOfStep(s, step, k);
    }
  }

  /**
   * With interleaving, whatever IDs the generator produces, a refused cancel can be answered 500 exactly in two
   * situations: the job did not exist at the cancel and its ID can be generated, or it was canceled with its
   * attempt still out and retries left.
   */
  lemma RefusedCancelCanFailIff(s: Sys, jobId: string, now: Time, generated: string -> bool)
    requires Reachable(s) && jobId != "" && Cancel(s.queue, jobId, now).1.Err?
    ensures (exists run :: FailsAfter(s, run, jobId, generated))
      <==> if Get(s.queue, jobId) == None then generated(jobId) else Revivable(s, Find(s.queue.jobs, jobId))
  {
    ReachableInv(s);
    var k := Find(s.queue.jobs, jobId);
    if k == |s.queue.jobs| {
      if generated(jobId) {
        var run := AbsentCanBeCreated(s, jobId);
        assert FailsAfter(s, run, jobId, generated);
      } else {
        forall run
          ensures !FailsAfter(s, run, jobId, generated)
        {
          if UsesGenerated(run, generated) {
            AbsentStaysAbsent(s, run, jobId, generated);
          }
        }
      }
    } else if Revivable(s, k) {
      var step := RevivedByItsResult(s, k);
      FindKept(s, [step], jobId);
      assert FailsAfter(s, [step], jobId, generated);
    } else {
      forall run
        ensures CodeAfter(s, run, jobId) != INTERNAL_ERROR
      {
        TerminalRun(s, run, k);
        FindKept(s, run, jobId);
      }
    }
  }

  lemma FindKept(s: Sys, run: seq<Step>, jobId: string)
    requires WellFormed(s.queue) && Find(s.queue.jobs, jobId) < |s.queue.jobs|
    ensures Find(Exec(s, run).queue.jobs, jobId) == Find(s.queue.jobs, jobId) < |Exec(s, run).queue.jobs|
  {
    RunIsReplay(s, run);
    JobHistory.JobsStayFindable(s.queue, Calls(s, run), jobId);
  }
}
