/**
 * The abstract store: a list of jobs in creation order and the registered agents.
 * Every store method is one atomic function on it; `Apply` is the sequential specification
 * used by the class, by the protocol and by the interleaving model.
 */
module JobQueue {
  import opened Wrappers
  import opened Model
  import opened AgentOrder

  datatype Queue = Queue(jobs: seq<Job>, agents: map<string, Agent>)

  ghost predicate UniqueIds(jobs: seq<Job>) {
    forall i, j | 0 <= i < j < |jobs| :: jobs[i].id != jobs[j].id
  }

  ghost predicate WellFormed(q: Queue) {
    UniqueIds(q.jobs) && Keyed(q.agents)
  }

  /** The position of the job with this ID, or the length of the list. */
  function Find(jobs: seq<Job>, id: string): (k: nat)
    ensures k <= |jobs|
    ensures k < |jobs| ==> jobs[k].id == id
    ensures forall i | 0 <= i < k :: jobs[i].id != id
  {
    FindFrom(jobs, id, 0)
  }

  function FindFrom(jobs: seq<Job>, id: string, start: nat): (k: nat)
    requires start <= |jobs|
    ensures start <= k <= |jobs|
    ensures k < |jobs| ==> jobs[k].id == id
    ensures forall i | start <= i < k :: jobs[i].id != id
    decreases |jobs| - start
  {
    if start == |jobs| || jobs[start].id == id then start else FindFrom(jobs, id, start + 1)
  }

  predicate Matches(job: Job, capSet: set<JobType>) {
    job.status == Pending && job.jobType in capSet
  }

  /** The oldest job an agent with these capabilities may be given, or the length of the list. */
  function FirstMatch(jobs: seq<Job>, capSet: set<JobType>): (k: nat)
    ensures k <= |jobs|
    ensures k < |jobs| ==> Matches(jobs[k], capSet)
    ensures forall i | 0 <= i < k :: !Matches(jobs[i], capSet)
  {
    FirstMatchFrom(jobs, capSet, 0)
  }

  function FirstMatchFrom(jobs: seq<Job>, capSet: set<JobType>, start: nat): (k: nat)
    requires start <= |jobs|
    ensures start <= k <= |jobs|
    ensures k < |jobs| ==> Matches(jobs[k], capSet)
    ensures forall i | start <= i < k :: !Matches(jobs[i], capSet)
    decreases |jobs| - start
  {
    if start == |jobs| || Matches(jobs[start], capSet) then start else FirstMatchFrom(jobs, capSet, start + 1)
  }

  function CapSet(capabilities: seq<JobType>): set<JobType> {
    set c | c in capabilities
  }

  // ---- What the methods do to one record ----

  function Assigned(job: Job, agentId: string, now: Time): Job {
    job.(status := Running, assignedAgentId := agentId, startedAt := Some(now), attemptCount := job.attemptCount + 1)
  }

  function CanceledAt(job: Job, now: Time): Job {
    job.(status := Canceled, finishedAt := Some(now))
  }

  predicate Retries(job: Job, status: JobStatus) {
    status == Failed && job.attemptCount < job.maxRetries
  }

  function Completed(job: Job, answer: Answer, now: Time): Job {
    var noted := job.(logs := job.logs + answer.logs, result := answer.result, error := answer.error);
    if Retries(job, answer.status) then
      noted.(status := Pending, assignedAgentId := "", startedAt := None)
    else
      noted.(status := answer.status, finishedAt := Some(now))
  }

  /** Online, and last seen before the cutoff `now - threshold`. */
  predicate Stale(agent: Agent, threshold: Time, now: Time) {
    agent.status == Online && agent.lastSeen < now - threshold
  }

  function Swept(agent: Agent, threshold: Time, now: Time): Agent {
    if Stale(agent, threshold, now) then agent.(status := Offline) else agent
  }

  function SweptAgents(agents: map<string, Agent>, threshold: Time, now: Time): map<string, Agent> {
    map id | id in agents :: Swept(agents[id], threshold, now)
  }

  function StaleIds(agents: map<string, Agent>, threshold: Time, now: Time): set<string> {
    set id | id in agents && Stale(agents[id], threshold, now)
  }

  // ---- The store methods ----

  function Create(q: Queue, job: Job): (r: (Queue, Result<Job, StoreError>)) {
    if Find(q.jobs, job.id) < |q.jobs| then (q, Err(JobExists(job.id)))
    else (q.(jobs := q.jobs + [job]), Ok(job))
  }

  function Get(q: Queue, id: string): (r: Option<Job>) {
    var k := Find(q.jobs, id);
    if k < |q.jobs| then Some(q.jobs[k]) else None
  }

  function Update(q: Queue, job: Job): (r: (Queue, Result<(), StoreError>)) {
    var k := Find(q.jobs, job.id);
    if k == |q.jobs| then (q, Err(JobNotFound(job.id))) else (q.(jobs := q.jobs[k := job]), Ok(()))
  }

  function Cancel(q: Queue, id: string, now: Time): (r: (Queue, Result<(), StoreError>)) {
    var k := Find(q.jobs, id);
    if k == |q.jobs| then (q, Err(JobNotFound(id)))
    else if q.jobs[k].status.IsTerminal() then (q, Err(JobTerminal(id, q.jobs[k].status)))
    else (q.(jobs := q.jobs[k := CanceledAt(q.jobs[k], now)]), Ok(()))
  }

  function Register(q: Queue, agent: Agent): (r: Queue) {
    q.(agents := q.agents[agent.id := agent])
  }

  function Beat(q: Queue, agentId: string, now: Time): (r: (Queue, Result<(), StoreError>)) {
    if agentId !in q.agents then (q, Err(AgentNotFound(agentId)))
    else (q.(agents := q.agents[agentId := q.agents[agentId].(lastSeen := now, status := Online)]), Ok(()))
  }

  function Assign(q: Queue, agentId: string, capabilities: seq<JobType>, now: Time)
    : (r: (Queue, Result<Option<Job>, StoreError>))
  {
    var k := FirstMatch(q.jobs, CapSet(capabilities));
    if agentId !in q.agents then (q, Err(AgentNotFound(agentId)))
    else if k == |q.jobs| then (q, Ok(None))
    else
      var job := Assigned(q.jobs[k], agentId, now);
      (q.(jobs := q.jobs[k := job]), Ok(Some(job)))
  }

  function Complete(q: Queue, id: string, answer: Answer, now: Time): (r: (Queue, Result<(), StoreError>)) {
    var k := Find(q.jobs, id);
    if k == |q.jobs| then (q, Err(JobNotFound(id)))
    else (q.(jobs := q.jobs[k := Completed(q.jobs[k], answer, now)]), Ok(()))
  }

  function Sweep(q: Queue, threshold: Time, now: Time): (r: (Queue, nat)) {
    (q.(agents := SweptAgents(q.agents, threshold, now)), |StaleIds(q.agents, threshold, now)|)
  }

  // ---- Calls and their replies ----

  datatype Op =
    | OpCreate(job: Job)
    | OpList
    | OpGet(jobId: string)
    | OpCancel(jobId: string, now: Time)
    | OpRegister(agent: Agent)
    | OpBeat(agentId: string, now: Time)
    | OpAgents
    | OpAssign(agentId: string, capabilities: seq<JobType>, now: Time)
    | OpComplete(jobId: string, answer: Answer, now: Time)
    | OpSweep(threshold: Time, now: Time)
  {
    /** The methods that take the read lock. */
    predicate Reads() {
      OpList? || OpGet? || OpAgents?
    }
  }

  datatype Reply =
    | OneJob(job: Job)
    | NoJob
    | OneAgent(agent: Agent)
    | JobList(jobs: seq<Job>)
    | AgentList(agents: seq<Agent>)
    | Done
    | Marked(count: nat)
    | Refused(error: StoreError)

  function Outcome(r: Result<(), StoreError>): Reply {
    match r
    case Ok(_) => Done
    case Err(e) => Refused(e)
  }

  function JobReply(r: Result<Job, StoreError>): Reply {
    match r
    case Ok(job) => OneJob(job)
    case Err(e) => Refused(e)
  }

  function FoundReply(r: Option<Job>): Reply {
    match r
    case Some(job) => OneJob(job)
    case None => NoJob
  }

  function AssignReply(r: Result<Option<Job>, StoreError>): Reply {
    match r
    case Ok(found) => FoundReply(found)
    case Err(e) => Refused(e)
  }

  /** The sequential specification of the store. */
  ghost function Apply(q: Queue, op: Op): (r: (Queue, Reply))
    requires WellFormed(q)
    ensures WellFormed(r.0)
    ensures op.Reads() ==> r.0 == q
  {
    match op
    case OpCreate(job) => var r := Create(q, job); (r.0, JobReply(r.1))
    case OpList => (q, JobList(q.jobs))
    case OpGet(id) => (q, FoundReply(Get(q, id)))
    case OpCancel(id, now) => var r := Cancel(q, id, now); (r.0, Outcome(r.1))
    case OpRegister(agent) => (Register(q, agent), OneAgent(agent))
    case OpBeat(agentId, now) => var r := Beat(q, agentId, now); (r.0, Outcome(r.1))
    case OpAgents => (q, AgentList(Listing(q.agents)))
    case OpAssign(agentId, caps, now) => var r := Assign(q, agentId, caps, now); (r.0, AssignReply(r.1))
    case OpComplete(id, answer, now) => var r := Complete(q, id, answer, now); (r.0, Outcome(r.1))
    case OpSweep(threshold, now) => var r := Sweep(q, threshold, now); (r.0, Marked(r.1))
  }

  /** The state after a sequence of calls by any callers, in this order. */
  ghost function Replay(q: Queue, ops: seq<Op>): (r: Queue)
    requires WellFormed(q)
    ensures WellFormed(r)
  {
    if ops == [] then q else Apply(Replay(q, ops[..|ops| - 1]), ops[|ops| - 1]).0
  }

  lemma ReplaySnoc(q: Queue, ops: seq<Op>, op: Op)
    requires WellFormed(q)
    ensures Replay(q, ops + [op]) == Apply(Replay(q, ops), op).0
  {
    assert (ops + [op])[..|ops|] == ops;
  }

  lemma FindAt(jobs: seq<Job>, k: nat)
    requires UniqueIds(jobs) && k < |jobs|
    ensures Find(jobs, jobs[k].id) == k
  {
  }

  lemma UpdatedIsFound(jobs: seq<Job>, k: nat, job: Job)
    requires UniqueIds(jobs) && k < |jobs| && job.id == jobs[k].id
    ensures Find(jobs[k := job], job.id) == k
  {
    FindAt(jobs[k := job], k);
  }

  // ---- What one call does to one job ----

  /** Job `k` after the call, said from the job's point of view. */
  ghost function JobAfter(q: Queue, op: Op, k: nat): Job
    requires k < |q.jobs|
  {
    var job := q.jobs[k];
    if op.OpAssign? && op.agentId in q.agents && FirstMatch(q.jobs, CapSet(op.capabilities)) == k then
      Assigned(job, op.agentId, op.now)
    else if op.OpComplete? && op.jobId == job.id then
      Completed(job, op.answer, op.now)
    else if op.OpCancel? && op.jobId == job.id && !job.status.IsTerminal() then
      CanceledAt(job, op.now)
    else
      job
  }

  /** A call creates at most one job, at the end, and treats each existing job as `JobAfter` says. */
  lemma EachJobAfter(q: Queue, op: Op)
    requires WellFormed(q)
    ensures var jobs := Apply(q, op).0.jobs;
      && (if op.OpCreate? && Find(q.jobs, op.job.id) == |q.jobs|
          then |jobs| == |q.jobs| + 1 && jobs[|q.jobs|] == op.job
          else |jobs| == |q.jobs|)
      && forall k | 0 <= k < |q.jobs| :: jobs[k] == JobAfter(q, op, k)
  {
    if op.OpCancel? || op.OpComplete? {
      IdIsFoundAtOnePlace(q.jobs, op.jobId);
    }
  }

  lemma IdIsFoundAtOnePlace(jobs: seq<Job>, id: string)
    requires UniqueIds(jobs)
    ensures forall k | 0 <= k < |jobs| :: jobs[k].id == id <==> k == Find(jobs, id)
  {
  }

  /**
   * AssignNextJob hands out exactly the oldest compatible PENDING job, and nothing iff there is none. Of the store it
   * changes that record alone, and of the record the status, the assignee, StartedAt and AttemptCount. An unknown
   * agent is an error.
   */
  lemma AssignIsFifo(q: Queue, agentId: string, caps: seq<JobType>, now: Time)
    ensures var r := Assign(q, agentId, caps, now);
      && (agentId !in q.agents ==> r == (q, Err(AgentNotFound(agentId))))
      && (agentId in q.agents ==>
            (r.1 == Ok(None) <==>
               forall k | 0 <= k < |q.jobs| :: q.jobs[k].status != Pending || q.jobs[k].jobType !in caps))
      && (r.1 == Ok(None) ==> r.0 == q)
      && (forall job: Job :: r.1 == Ok(Some(job)) ==>
            exists k :: && 0 <= k < |q.jobs| && q.jobs[k].status == Pending && q.jobs[k].jobType in caps
                        && (forall i | 0 <= i < k :: q.jobs[i].status != Pending || q.jobs[i].jobType !in caps)
                        && job.status == Running && job.assignedAgentId == agentId && job.startedAt == Some(now)
                        && job.attemptCount == q.jobs[k].attemptCount + 1
                        && OnlyHandedOut(q.jobs[k], job)
                        && r.0 == q.(jobs := q.jobs[k := job]))
  {
    var k := FirstMatch(q.jobs, CapSet(caps));
    if agentId in q.agents && k < |q.jobs| {
      var job := Assign(q, agentId, caps, now).1.value.value;
      assert OnlyHandedOut(q.jobs[k], job);
    } else if agentId in q.agents {
      assert forall i | 0 <= i < |q.jobs| :: !Matches(q.jobs[i], CapSet(caps));
    }
  }

  /** The fields that a hand-out leaves alone. */
  predicate OnlyHandedOut(before: Job, after: Job) {
    && after.id == before.id && after.name == before.name && after.jobType == before.jobType
    && after.payload == before.payload && after.createdAt == before.createdAt && after.finishedAt == before.finishedAt
    && after.maxRetries == before.maxRetries && after.timeoutSeconds == before.timeoutSeconds
    && after.logs == before.logs && after.error == before.error && after.result == before.result
  }

  // ---- Sweeping ----

  /** A second sweep with the same cutoff finds nothing and changes nothing. */
  lemma SweepIsIdempotent(q: Queue, threshold: Time, now: Time, threshold': Time, now': Time)
    requires now - threshold == now' - threshold'
    ensures var once := Sweep(q, threshold, now).0;
      Sweep(once, threshold', now') == (once, 0)
  {
    var once := Sweep(q, threshold, now).0;
    assert StaleIds(once.agents, threshold', now') == {};
    assert SweptAgents(once.agents, threshold', now') == once.agents;
  }

  /** The count is the number of agents whose record changed, and they are the stale online ones. */
  lemma SweepMarksExactlyTheStale(q: Queue, threshold: Time, now: Time)
    ensures var r := Sweep(q, threshold, now);
      && r.0.jobs == q.jobs && r.0.agents.Keys == q.agents.Keys
      && r.1 == |set id | id in q.agents && r.0.agents[id] != q.agents[id]|
      && (forall id | id in q.agents :: r.0.agents[id] != q.agents[id] <==>
            q.agents[id].status == Online && q.agents[id].lastSeen < now - threshold)
      && (forall id | id in q.agents :: r.0.agents[id].status == Online ==> r.0.agents[id].lastSeen >= now - threshold)
  {
    var r := Sweep(q, threshold, now);
    assert (set id | id in q.agents && r.0.agents[id] != q.agents[id]) == StaleIds(q.agents, threshold, now);
  }
}
