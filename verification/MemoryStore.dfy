/**
 * The in-memory store with its three fields, one method per store method with the source's loops.
 * The ghost field `queue` is the abstract store they refine; every method is proved to do to it what `JobQueue` says.
 */
module MemoryStore {
  import opened Wrappers
  import opened Model
  import opened AgentOrder
  import opened JobQueue

  /** The store's fields as one value. */
  datatype Mem = Mem(jobs: map<string, Job>, order: seq<string>, agents: map<string, Agent>)

  /**
   * The map and the order stand for this list of jobs: the order holds the IDs of the list, without
   * duplicates, each is a key of the map with its own record, and the map has no other key.
   */
  ghost predicate Represents(jobs: map<string, Job>, order: seq<string>, list: seq<Job>) {
    && UniqueIds(list)
    && |order| == |list|
    && (forall k | 0 <= k < |list| :: order[k] == list[k].id && order[k] in jobs && jobs[order[k]] == list[k])
    && (forall id | id in jobs :: id in order)
  }

  /** The fields refine the abstract store. */
  ghost predicate Refines(m: Mem, q: Queue) {
    Represents(m.jobs, m.order, q.jobs) && m.agents == q.agents && Keyed(q.agents)
  }

  /** Keys and order are in bijection, keys are the IDs of their records, and only one list is represented. */
  lemma RefinesIsABijection(m: Mem, q: Queue, q': Queue)
    requires Refines(m, q) && Refines(m, q')
    ensures q == q'
    ensures forall id :: id in m.jobs <==> id in m.order
    ensures forall i, j | 0 <= i < j < |m.order| :: m.order[i] != m.order[j]
    ensures forall id | id in m.jobs :: m.jobs[id].id == id
  {
    assert q.jobs == q'.jobs;
    forall id
      ensures id in m.jobs <==> id in m.order
      ensures id in m.jobs ==> m.jobs[id].id == id
    {
      if id in m.order {
        var k :| 0 <= k < |m.order| && m.order[k] == id;
      }
    }
  }

  /** A lookup in the map is a lookup in the list. */
  lemma LookupRefines(m: Mem, q: Queue, id: string)
    requires Refines(m, q)
    ensures Get(q, id) == if id in m.jobs then Some(m.jobs[id]) else None
    ensures id in m.jobs <==> Find(q.jobs, id) < |q.jobs|
    ensures id in m.jobs ==> q.jobs[Find(q.jobs, id)] == m.jobs[id]
  {
    if id in m.jobs {
      var i :| 0 <= i < |m.order| && m.order[i] == id;
      assert q.jobs[i].id == id;
    }
  }

  /** Writing one existing key of the map changes one position of the list. */
  lemma WriteRefines(m: Mem, q: Queue, id: string, job: Job)
    requires Refines(m, q) && id in m.jobs && job.id == id
    ensures Find(q.jobs, id) < |q.jobs|
    ensures Refines(m.(jobs := m.jobs[id := job]), q.(jobs := q.jobs[Find(q.jobs, id) := job]))
  {
    LookupRefines(m, q, id);
  }

  /** A new key, appended to the order, extends the list at its end. */
  lemma AppendRefines(m: Mem, q: Queue, job: Job)
    requires Refines(m, q) && job.id !in m.jobs
    ensures Find(q.jobs, job.id) == |q.jobs|
    ensures Refines(Mem(m.jobs[job.id := job], m.order + [job.id], m.agents), q.(jobs := q.jobs + [job]))
  {
    LookupRefines(m, q, job.id);
  }

  lemma CapSetGrows(caps: seq<JobType>, i: nat)
    requires i < |caps|
    ensures CapSet(caps[..i + 1]) == CapSet(caps[..i]) + {caps[i]}
  {
    assert caps[..i + 1] == caps[..i] + [caps[i]];
  }

  /** The walk has skipped the first `i` jobs. */
  ghost predicate Skipped(q: Queue, capSet: set<JobType>, i: nat) {
    i <= |q.jobs| && forall k | 0 <= k < i :: !Matches(q.jobs[k], capSet)
  }

  /** Writing the record the walk stopped at is exactly the abstract assignment. */
  lemma WalkAssigns(m: Mem, q: Queue, agentId: string, caps: seq<JobType>, i: nat, now: Time)
    requires Refines(m, q) && agentId in m.agents && i < |m.order| && Skipped(q, CapSet(caps), i)
    requires m.order[i] in m.jobs && Matches(m.jobs[m.order[i]], CapSet(caps))
    ensures var job := Assigned(m.jobs[m.order[i]], agentId, now);
      var r := Assign(q, agentId, caps, now);
      Refines(m.(jobs := m.jobs[m.order[i] := job]), r.0) && r.1 == Ok(Some(job))
  {
    var id := m.order[i];
    FindAt(q.jobs, i);
    WriteRefines(m, q, id, Assigned(m.jobs[id], agentId, now));
    assert FirstMatch(q.jobs, CapSet(caps)) == i;
  }

  lemma WalkEnds(q: Queue, agentId: string, caps: seq<JobType>, now: Time)
    requires agentId in q.agents && Skipped(q, CapSet(caps), |q.jobs|)
    ensures Assign(q, agentId, caps, now) == (q, Ok(None))
  {
  }

  /** The agents map part way through a sweep: the keys in `todo` are still untreated. */
  function PartlySwept(start: map<string, Agent>, threshold: Time, now: Time, todo: set<string>): map<string, Agent> {
    map id | id in start :: if id in todo then start[id] else Swept(start[id], threshold, now)
  }

  /** How many agents have been marked by then. */
  function MarkedSoFar(start: map<string, Agent>, threshold: Time, now: Time, todo: set<string>): nat {
    |StaleIds(start, threshold, now) - todo|
  }

  lemma SweepStarts(start: map<string, Agent>, threshold: Time, now: Time)
    ensures PartlySwept(start, threshold, now, start.Keys) == start
    ensures MarkedSoFar(start, threshold, now, start.Keys) == 0
  {
    assert StaleIds(start, threshold, now) - start.Keys == {};
  }

  lemma SweepOne(start: map<string, Agent>, threshold: Time, now: Time, todo: set<string>, id: string)
    requires id in todo && id in start
    ensures PartlySwept(start, threshold, now, todo)[id] == start[id]
    ensures PartlySwept(start, threshold, now, todo - {id})
         == if Stale(start[id], threshold, now)
            then PartlySwept(start, threshold, now, todo)[id := start[id].(status := Offline)]
            else PartlySwept(start, threshold, now, todo)
    ensures MarkedSoFar(start, threshold, now, todo - {id})
         == MarkedSoFar(start, threshold, now, todo) + if Stale(start[id], threshold, now) then 1 else 0
  {
    var marked := StaleIds(start, threshold, now) - todo;
    assert StaleIds(start, threshold, now) - (todo - {id})
        == if Stale(start[id], threshold, now) then marked + {id} else marked;
  }

  lemma SweepEnds(start: map<string, Agent>, threshold: Time, now: Time)
    ensures PartlySwept(start, threshold, now, {}) == SweptAgents(start, threshold, now)
    ensures MarkedSoFar(start, threshold, now, {}) == |StaleIds(start, threshold, now)|
  {
    assert StaleIds(start, threshold, now) - {} == StaleIds(start, threshold, now);
  }

  /** The set that AssignNextJob builds for its lookups. */
  method BuildCapSet(capabilities: seq<JobType>) returns (capSet: set<JobType>)
    ensures capSet == CapSet(capabilities)
  {
    capSet := {};
    for i := 0 to |capabilities|
      invariant capSet == CapSet(capabilities[..i])
    {
      CapSetGrows(capabilities, i);
      capSet := capSet + {capabilities[i]};
    }
    assert capabilities[..|capabilities|] == capabilities;
  }

  class MemoryStore {
    var jobs: map<string, Job>
    var agents: map<string, Agent>
    var jobOrder: seq<string>

    ghost var queue: Queue  // the abstract store

    ghost function State(): Mem
      reads this
    {
      Mem(jobs, jobOrder, agents)
    }

    /** The representation invariant. */
    ghost predicate Valid()
      reads this
    {
      Refines(State(), queue)
    }

    constructor ()
      ensures Valid() && queue == Queue([], map[])
    {
      jobs := map[];
      agents := map[];
      jobOrder := [];
      queue := Queue([], map[]);
    }

    method CreateJob(job: Job) returns (r: Result<Job, StoreError>)
      requires Valid()
      modifies this
      ensures Valid() && (queue, r) == Create(old(queue), job)
    {
      LookupRefines(State(), queue, job.id);
      if job.id in jobs {
        return Err(JobExists(job.id));
      }
      AppendRefines(State(), queue, job);
      queue := Create(queue, job).0;
      jobs := jobs[job.id := job];
      jobOrder := jobOrder + [job.id];
      r := Ok(job);
    }

    method ListJobs() returns (result: seq<Job>)
      requires Valid()
      ensures result == queue.jobs
    {
      result := [];
      for i := 0 to |jobOrder|
        invariant result == queue.jobs[..i]
      {
        if jobOrder[i] in jobs {
          result := result + [jobs[jobOrder[i]]];
        }
      }
      assert queue.jobs[..|jobOrder|] == queue.jobs;
    }

    method GetJob(jobId: string) returns (found: Option<Job>)
      requires Valid()
      ensures found == Get(queue, jobId)
    {
      LookupRefines(State(), queue, jobId);
      found := if jobId in jobs then Some(jobs[jobId]) else None;
    }

    method UpdateJob(job: Job) returns (r: Result<(), StoreError>)
      requires Valid()
      modifies this
      ensures Valid() && (queue, r) == Update(old(queue), job)
    {
      LookupRefines(State(), queue, job.id);
      if job.id !in jobs {
        return Err(JobNotFound(job.id));
      }
      WriteRefines(State(), queue, job.id, job);
      queue := Update(queue, job).0;
      jobs := jobs[job.id := job];
      r := Ok(());
    }

    method CancelJob(jobId: string, now: Time) returns (r: Result<(), StoreError>)
      requires Valid()
      modifies this
      ensures Valid() && (queue, r) == Cancel(old(queue), jobId, now)
    {
      LookupRefines(State(), queue, jobId);
      if jobId !in jobs {
        return Err(JobNotFound(jobId));
      }
      var job := jobs[jobId];
      if job.status.IsTerminal() {
        return Err(JobTerminal(jobId, job.status));
      }
      job := job.(status := Canceled);
      job := job.(finishedAt := Some(now));
      WriteRefines(State(), queue, jobId, job);
      queue := Cancel(queue, jobId, now).0;
      jobs := jobs[jobId := job];
      r := Ok(());
    }

    method RegisterAgent(agent: Agent) returns (registered: Agent)
      requires Valid()
      modifies this
      ensures Valid() && queue == JobQueue.Register(old(queue), agent) && registered == agent
    {
      agents := agents[agent.id := agent];
      queue := JobQueue.Register(queue, agent);
      registered := agent;
    }

    method Heartbeat(agentId: string, now: Time) returns (r: Result<(), StoreError>)
      requires Valid()
      modifies this
      ensures Valid() && (queue, r) == Beat(old(queue), agentId, now)
    {
      if agentId !in agents {
        return Err(AgentNotFound(agentId));
      }
      var agent := agents[agentId];
      agent := agent.(lastSeen := now);
      agent := agent.(status := Online);
      agents := agents[agentId := agent];
      queue := Beat(queue, agentId, now).0;
      r := Ok(());
    }

    /** The loop takes the keys in any order, as ranging over a Go map does. */
    method ListAgents() returns (result: seq<Agent>)
      requires Valid()
      ensures result == Listing(queue.agents)
    {
      result := [];
      var todo := agents.Keys;
      while todo != {}
        invariant todo <= agents.Keys
        invariant Collected(agents, todo, result)
        decreases |todo|
      {
        var id :| id in todo;
        CollectOne(agents, todo, result, id);
        result := result + [agents[id]];
        todo := todo - {id};
      }
      ghost var collected := result;
      result := SortById(result);
      SortedCollectionLists(agents, collected, result);
      ListingIsUnique(agents, result, Listing(agents));
    }

    /** The walk over `jobOrder`: takes the first compatible PENDING job. */
    method AssignNextJob(agentId: string, capabilities: seq<JobType>, now: Time)
      returns (r: Result<Option<Job>, StoreError>)
      requires Valid()
      modifies this
      ensures Valid() && (queue, r) == Assign(old(queue), agentId, capabilities, now)
    {
      if agentId !in agents {
        return Err(AgentNotFound(agentId));
      }
      var capSet := BuildCapSet(capabilities);
      for i := 0 to |jobOrder|
        invariant unchanged(this) && Skipped(queue, capSet, i)
      {
        var id := jobOrder[i];
        if id !in jobs {
          continue;
        }
        var job := jobs[id];
        if job.status != Pending {
          continue;
        }
        if job.jobType !in capSet {
          continue;
        }
        WalkAssigns(State(), queue, agentId, capabilities, i, now);
        job := job.(
          status := Running,
          assignedAgentId := agentId,
          startedAt := Some(now),
          attemptCount := job.attemptCount + 1);
        jobs := jobs[id := job];
        r := Ok(Some(job));
        queue := Assign(queue, agentId, capabilities, now).0;
        return;
      }
      WalkEnds(queue, agentId, capabilities, now);
      r := Ok(None);
    }

    method CompleteJob(jobId: string, status: JobStatus, logs: seq<string>, result: Payload, errMsg: string, now: Time)
      returns (r: Result<(), StoreError>)
      requires Valid()
      modifies this
      ensures Valid() && (queue, r) == Complete(old(queue), jobId, Answer(status, logs, result, errMsg), now)
    {
      LookupRefines(State(), queue, jobId);
      if jobId !in jobs {
        return Err(JobNotFound(jobId));
      }
      ghost var answer := Answer(status, logs, result, errMsg);
      var job := jobs[jobId];
      job := job.(logs := job.logs + logs);
      job := job.(result := result);
      job := job.(error := errMsg);
      if status == Failed && job.attemptCount < job.maxRetries {
        job := job.(status := Retrying);
        job := job.(assignedAgentId := "");
        job := job.(startedAt := None);
        job := job.(status := Pending);
        WriteRefines(State(), queue, jobId, job);
        queue := Complete(queue, jobId, answer, now).0;
        jobs := jobs[jobId := job];
        return Ok(());
      }
      job := job.(status := status);
      job := job.(finishedAt := Some(now));
      WriteRefines(State(), queue, jobId, job);
      queue := Complete(queue, jobId, answer, now).0;
      jobs := jobs[jobId := job];
      r := Ok(());
    }

    /** Writes the map while ranging over it: each key is visited once, in any order. */
    method MarkStaleAgentsOffline(threshold: Time, now: Time) returns (count: nat)
      requires Valid()
      modifies this
      ensures Valid() && (queue, count) == Sweep(old(queue), threshold, now)
    {
      var cutoff := now - threshold;
      count := 0;
      var todo := agents.Keys;
      ghost var start := agents;
      SweepStarts(start, threshold, now);
      while todo != {}
        modifies `agents
        invariant todo <= start.Keys && agents == PartlySwept(start, threshold, now, todo)
        invariant count == MarkedSoFar(start, threshold, now, todo)
        decreases |todo|
      {
        var id :| id in todo;
        SweepOne(start, threshold, now, todo, id);
        var agent := agents[id];
        if agent.status == Online && agent.lastSeen < cutoff {
          agent := agent.(status := Offline);
          agents := agents[id := agent];
          count := count + 1;
        }
        todo := todo - {id};
      }
      assert todo == {};
      SweepEnds(start, threshold, now);
      queue := Sweep(queue, threshold, now).0;
    }
  }
}
