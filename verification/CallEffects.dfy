/** What each store call promises, said of the stored records and the reply. */
module CallEffects {
  import opened Wrappers
  import opened Model
  import opened AgentOrder
  import opened JobQueue
  import Linearizability

  ghost predicate Absent(jobs: seq<Job>, id: string) {
    forall k | 0 <= k < |jobs| :: jobs[k].id != id
  }

  /** Job `k` is the oldest PENDING one of these types. */
  ghost predicate IsNext(jobs: seq<Job>, caps: seq<JobType>, k: nat) {
    && k < |jobs| && jobs[k].status == Pending && jobs[k].jobType in caps
    && forall i | 0 <= i < k :: jobs[i].status != Pending || jobs[i].jobType !in caps
  }

  ghost predicate NoneNext(jobs: seq<Job>, caps: seq<JobType>) {
    forall i | 0 <= i < |jobs| :: jobs[i].status != Pending || jobs[i].jobType !in caps
  }

  /** The record after a result: PENDING if it failed and attempts are left, else finished, whatever it was before. */
  predicate ResultRecorded(job: Job, answer: Answer, now: Time, after: Job) {
    && after.logs == job.logs + answer.logs && after.result == answer.result && after.error == answer.error
    && (if answer.status == Failed && job.attemptCount < job.maxRetries then
          && after.status == Pending && after.assignedAgentId == "" && after.startedAt == None
          && after.finishedAt == job.finishedAt
        else
          && after.status == answer.status && after.finishedAt == Some(now)
          && after.assignedAgentId == job.assignedAgentId && after.startedAt == job.startedAt)
    && after.id == job.id && after.name == job.name && after.jobType == job.jobType && after.payload == job.payload
    && after.createdAt == job.createdAt && after.attemptCount == job.attemptCount
    && after.maxRetries == job.maxRetries && after.timeoutSeconds == job.timeoutSeconds
  }

  /** The reply and the store after the call are those promised. */
  ghost predicate Promised(q: Queue, op: Op, reply: Reply, q': Queue) {
    match op
    case OpCreate(job) =>
      if Absent(q.jobs, job.id) then reply == OneJob(job) && q' == Queue(q.jobs + [job], q.agents)
      else reply == Refused(JobExists(job.id)) && q' == q
    case OpList => reply == JobList(q.jobs) && q' == q
    case OpGet(id) =>
      && q' == q && (Absent(q.jobs, id) ==> reply == NoJob)
      && forall k | 0 <= k < |q.jobs| && q.jobs[k].id == id :: reply == OneJob(q.jobs[k])
    case OpCancel(id, now) =>
      && (Absent(q.jobs, id) ==> reply == Refused(JobNotFound(id)) && q' == q)
      && forall k | 0 <= k < |q.jobs| && q.jobs[k].id == id ::
           if q.jobs[k].status in {Success, Failed, Canceled} then
             reply == Refused(JobTerminal(id, q.jobs[k].status)) && q' == q
           else
             && reply == Done
             && q' == Queue(q.jobs[k := q.jobs[k].(status := Canceled, finishedAt := Some(now))], q.agents)
    case OpRegister(agent) => reply == OneAgent(agent) && q' == Queue(q.jobs, q.agents[agent.id := agent])
    case OpBeat(id, now) =>
      if id !in q.agents then reply == Refused(AgentNotFound(id)) && q' == q
      else
        && reply == Done
        && q' == Queue(q.jobs, q.agents[id := q.agents[id].(lastSeen := now, status := Online)])
    case OpAgents => reply.AgentList? && Lists(q.agents, reply.agents) && q' == q
    case OpAssign(id, caps, now) =>
      && (id !in q.agents ==> reply == Refused(AgentNotFound(id)) && q' == q)
      && (id in q.agents && NoneNext(q.jobs, caps) ==> reply == NoJob && q' == q)
      && forall k | 0 <= k < |q.jobs| && id in q.agents && IsNext(q.jobs, caps, k) ::
           var given := q.jobs[k].(
             status := Running, assignedAgentId := id, startedAt := Some(now),
             attemptCount := q.jobs[k].attemptCount + 1);
           reply == OneJob(given) && q' == Queue(q.jobs[k := given], q.agents)
    case OpComplete(id, answer, now) =>
      && (Absent(q.jobs, id) ==> reply == Refused(JobNotFound(id)) && q' == q)
      && forall k | 0 <= k < |q.jobs| && q.jobs[k].id == id ::
           && reply == Done && k < |q'.jobs| && q' == Queue(q.jobs[k := q'.jobs[k]], q.agents)
           && ResultRecorded(q.jobs[k], answer, now, q'.jobs[k])
    case OpSweep(threshold, now) =>
      && q'.jobs == q.jobs && q'.agents.Keys == q.agents.Keys
      && reply == Marked(|set id | id in q.agents && q'.agents[id] != q.agents[id]|)
      && forall id | id in q.agents ::
           q'.agents[id] == q.agents[id].(
             status := if q.agents[id].lastSeen < now - threshold then Offline else q.agents[id].status)
  }

  lemma LookupsKeepPromise(q: Queue, op: Op)
    requires WellFormed(q) && (op.OpGet? || op.OpCancel? || op.OpComplete?)
    ensures Promised(q, op, Apply(q, op).1, Apply(q, op).0)
  {
    IdIsFoundAtOnePlace(q.jobs, op.jobId);
  }

  lemma CreateKeepsPromise(q: Queue, op: Op)
    requires WellFormed(q) && op.OpCreate?
    ensures Promised(q, op, Apply(q, op).1, Apply(q, op).0)
  {
    IdIsFoundAtOnePlace(q.jobs, op.job.id);
  }

  lemma AssignKeepsPromise(q: Queue, op: Op)
    requires WellFormed(q) && op.OpAssign?
    ensures Promised(q, op, Apply(q, op).1, Apply(q, op).0)
  {
    var first := FirstMatch(q.jobs, CapSet(op.capabilities));
    forall k | 0 <= k < |q.jobs| && IsNext(q.jobs, op.capabilities, k)
      ensures k == first
    {
      assert Matches(q.jobs[k], CapSet(op.capabilities));
      if first < |q.jobs| {
        assert Matches(q.jobs[first], CapSet(op.capabilities));
      }
    }
    if NoneNext(q.jobs, op.capabilities) && first < |q.jobs| {
      assert false;
    }
  }

  lemma SweepKeepsPromise(q: Queue, op: Op)
    requires WellFormed(q) && op.OpSweep?
    ensures Promised(q, op, Apply(q, op).1, Apply(q, op).0)
  {
    SweepMarksExactlyTheStale(q, op.threshold, op.now);
  }

  /** Every atomic call does and replies what is promised. */
  lemma CallsKeepPromise(q: Queue, op: Op)
    requires WellFormed(q)
    ensures Promised(q, op, Apply(q, op).1, Apply(q, op).0)
  {
    match op
    case OpCreate(_) => CreateKeepsPromise(q, op);
    case OpAssign(_, _, _) => AssignKeepsPromise(q, op);
    case OpSweep(_, _) => SweepKeepsPromise(q, op);
    case OpGet(_) => LookupsKeepPromise(q, op);
    case OpCancel(_, _) => LookupsKeepPromise(q, op);
    case OpComplete(_, _, _) => LookupsKeepPromise(q, op);
    case _ =>
  }

  lemma CompletePromiseIsUnique(q: Queue, op: Op, reply: Reply, q': Queue)
    requires WellFormed(q) && op.OpComplete? && Promised(q, op, reply, q')
    ensures reply == Apply(q, op).1 && q' == Apply(q, op).0
  {
    var k := Find(q.jobs, op.jobId);
    if k < |q.jobs| {
      assert q.jobs[k].id == op.jobId;
    } else {
      assert Absent(q.jobs, op.jobId);
    }
  }

  lemma SweepPromiseIsUnique(q: Queue, op: Op, reply: Reply, q': Queue)
    requires WellFormed(q) && op.OpSweep? && Promised(q, op, reply, q')
    ensures reply == Apply(q, op).1 && q' == Apply(q, op).0
  {
    assert q'.agents == SweptAgents(q.agents, op.threshold, op.now);
    SweepKeepsPromise(q, op);
  }

  lemma AssignPromiseIsUnique(q: Queue, op: Op, reply: Reply, q': Queue)
    requires WellFormed(q) && op.OpAssign? && Promised(q, op, reply, q')
    ensures reply == Apply(q, op).1 && q' == Apply(q, op).0
  {
    var k := FirstMatch(q.jobs, CapSet(op.capabilities));
    forall i | 0 <= i < k
      ensures q.jobs[i].status != Pending || q.jobs[i].jobType !in op.capabilities
    {
      assert !Matches(q.jobs[i], CapSet(op.capabilities));
    }
    if k < |q.jobs| {
      assert IsNext(q.jobs, op.capabilities, k);
    } else {
      assert NoneNext(q.jobs, op.capabilities);
    }
  }

  /** The promise leaves no choice: one reply and one store keep it, those of the atomic call. */
  lemma PromiseIsUnique(q: Queue, op: Op, reply: Reply, q': Queue)
    requires WellFormed(q) && Promised(q, op, reply, q')
    ensures reply == Apply(q, op).1 && q' == Apply(q, op).0
  {
    match op
    case OpCreate(job) => IdIsFoundAtOnePlace(q.jobs, job.id);
    case OpGet(id) => IdIsFoundAtOnePlace(q.jobs, id);
    case OpCancel(id, _) => IdIsFoundAtOnePlace(q.jobs, id);
    case OpAgents => ListingIsUnique(q.agents, reply.agents, AgentOrder.Listing(q.agents));
    case OpAssign(_, _, _) => AssignPromiseIsUnique(q, op, reply, q');
    case OpComplete(_, _, _) => CompletePromiseIsUnique(q, op, reply, q');
    case OpSweep(_, _) => SweepPromiseIsUnique(q, op, reply, q');
    case _ =>
  }

  /** In every interleaving each thread gets the promised reply, for the stores of one instant and the next. */
  lemma PromisesInEveryInterleaving(q: Queue, trace: Linearizability.Trace, p: nat)
    requires WellFormed(q) && trace.From(q) && p < |trace.Last().log|
    ensures var log := trace.Last().log;
      && log[p].since <= p
      && Promised(Linearizability.After(q, log, p), log[p].op, log[p].reply, Linearizability.After(q, log, p + 1))
  {
    Linearizability.EveryInterleavingIsSequential(q, trace);
    var log := trace.Last().log;
    assert Linearizability.InPlace(q, log, p);
    CallsKeepPromise(Linearizability.After(q, log, p), log[p].op);
  }

  /** UpdateJob replaces exactly the record with the job's ID. */
  lemma UpdateReplaces(q: Queue, job: Job)
    requires WellFormed(q)
    ensures var r := Update(q, job);
      && (Absent(q.jobs, job.id) ==> r == (q, Err(JobNotFound(job.id))))
      && forall k | 0 <= k < |q.jobs| && q.jobs[k].id == job.id :: r == (Queue(q.jobs[k := job], q.agents), Ok(()))
  {
    IdIsFoundAtOnePlace(q.jobs, job.id);
  }
}
