/**
 * The store methods statement by statement, and what each point inside a method knows of the fields and of the
 * abstract store at the moment its lock was taken.
 */
module Interleaving {
  import opened Wrappers
  import opened Model
  import opened AgentOrder
  import opened JobQueue
  import opened MemoryStore

  /** Where a thread is inside a method, with its local variables. */
  datatype Frame =
    | Enter
    | Appending                                                     // CreateJob: the map is written, the order not yet
    | Listing(i: nat, listed: seq<Job>)
    | Filling(i: nat, capSet: set<JobType>)
    | Walking(capSet: set<JobType>, i: nat)
    | Writing(id: string, job: Job, reply: Reply)                   // a changed copy, about to be stored
    | WritingAgent(id: string, agent: Agent)
    | Collecting(todo: set<string>, found: seq<Agent>)
    | Sweeping(todo: set<string>, count: nat)
    | Marking(todo: set<string>, count: nat, id: string, agent: Agent)
    | Return(reply: Reply)

  /** One statement of the method `op` in frame `f`, on the shared fields `m`. */
  ghost predicate Statement(op: Op, f: Frame, m: Mem, f': Frame, m': Mem) {
    match op
    case OpCreate(job) => CreateStatement(job, f, m, f', m')
    case OpList => m' == m && ListStatement(f, m, f')
    case OpGet(id) => m' == m && f.Enter? && f' == Return(FoundReply(if id in m.jobs then Some(m.jobs[id]) else None))
    case OpCancel(id, now) => WriteStatement(f, m, f', m') || (m' == m && CancelEnters(id, now, f, m, f'))
    case OpRegister(agent) =>
      f.Enter? && m' == m.(agents := m.agents[agent.id := agent]) && f' == Return(OneAgent(agent))
    case OpBeat(agentId, now) => BeatStatement(agentId, now, f, m, f', m')
    case OpAgents => m' == m && AgentsStatement(f, m, f')
    case OpAssign(agentId, caps, now) =>
      WriteStatement(f, m, f', m') || (m' == m && AssignStatement(agentId, caps, now, f, m, f'))
    case OpComplete(id, answer, now) =>
      WriteStatement(f, m, f', m') || (m' == m && CompleteEnters(id, answer, now, f, m, f'))
    case OpSweep(threshold, now) => SweepStatement(threshold, now, f, m, f', m')
  }

  ghost predicate CreateStatement(job: Job, f: Frame, m: Mem, f': Frame, m': Mem) {
    || (f.Enter? && job.id in m.jobs && m' == m && f' == Return(Refused(JobExists(job.id))))
    || (f.Enter? && job.id !in m.jobs && m' == m.(jobs := m.jobs[job.id := job]) && f' == Appending)
    || (f.Appending? && m' == m.(order := m.order + [job.id]) && f' == Return(OneJob(job)))
  }

  ghost predicate ListStatement(f: Frame, m: Mem, f': Frame) {
    || (f.Enter? && f' == Listing(0, []))
    || (f.Listing? && f.i < |m.order| && f' == Listing(f.i + 1,
          if m.order[f.i] in m.jobs then f.listed + [m.jobs[m.order[f.i]]] else f.listed))
    || (f.Listing? && f.i >= |m.order| && f' == Return(JobList(f.listed)))
  }

  /** The last statement of Cancel, Assign and Complete stores the changed copy. */
  ghost predicate WriteStatement(f: Frame, m: Mem, f': Frame, m': Mem) {
    f.Writing? && m' == m.(jobs := m.jobs[f.id := f.job]) && f' == Return(f.reply)
  }

  ghost predicate CancelEnters(id: string, now: Time, f: Frame, m: Mem, f': Frame) {
    f.Enter? && f' ==
      if id !in m.jobs then Return(Refused(JobNotFound(id)))
      else if m.jobs[id].status.IsTerminal() then Return(Refused(JobTerminal(id, m.jobs[id].status)))
      else Writing(id, CanceledAt(m.jobs[id], now), Done)
  }

  ghost predicate CompleteEnters(id: string, answer: Answer, now: Time, f: Frame, m: Mem, f': Frame) {
    f.Enter? && f' ==
      if id !in m.jobs then Return(Refused(JobNotFound(id)))
      else Writing(id, Completed(m.jobs[id], answer, now), Done)
  }

  ghost predicate AssignStatement(agentId: string, caps: seq<JobType>, now: Time, f: Frame, m: Mem, f': Frame) {
    || (f.Enter? && f' == if agentId !in m.agents then Return(Refused(AgentNotFound(agentId))) else Filling(0, {}))
    || (f.Filling? && f.i < |caps| && f' == Filling(f.i + 1, f.capSet + {caps[f.i]}))
    || (f.Filling? && f.i >= |caps| && f' == Walking(f.capSet, 0))
    || (f.Walking? && f.i >= |m.order| && f' == Return(NoJob))
    || (f.Walking? && f.i < |m.order| && f' ==
          var id := m.order[f.i];
          if id in m.jobs && Matches(m.jobs[id], f.capSet)
          then Writing(id, Assigned(m.jobs[id], agentId, now), OneJob(Assigned(m.jobs[id], agentId, now)))
          else Walking(f.capSet, f.i + 1))
  }

  ghost predicate BeatStatement(agentId: string, now: Time, f: Frame, m: Mem, f': Frame, m': Mem) {
    || (f.Enter? && m' == m && f' ==
          if agentId !in m.agents then Return(Refused(AgentNotFound(agentId)))
          else WritingAgent(agentId, m.agents[agentId].(lastSeen := now, status := Online)))
    || (f.WritingAgent? && m' == m.(agents := m.agents[f.id := f.agent]) && f' == Return(Done))
  }

  /** The map is ranged over in any order, and the sort may return any sorted arrangement. */
  ghost predicate AgentsStatement(f: Frame, m: Mem, f': Frame) {
    || (f.Enter? && f' == Collecting(m.agents.Keys, []))
    || (f.Collecting? && f'.Collecting? && exists id ::
          id in f.todo && id in m.agents && f' == Collecting(f.todo - {id}, f.found + [m.agents[id]]))
    || (f.Collecting? && f.todo == {} && f'.Return? && f'.reply.AgentList?
          && Sorted(f'.reply.agents) && multiset(f'.reply.agents) == multiset(f.found))
  }

  /** The range loop takes a copy of the agent and tests it. */
  ghost function Visit(threshold: Time, now: Time, f: Frame, m: Mem, id: string): Frame
    requires f.Sweeping? && id in m.agents
  {
    if Stale(m.agents[id], threshold, now)
    then Marking(f.todo - {id}, f.count, id, m.agents[id].(status := Offline))
    else Sweeping(f.todo - {id}, f.count)
  }

  ghost predicate SweepStatement(threshold: Time, now: Time, f: Frame, m: Mem, f': Frame, m': Mem) {
    || (f.Enter? && m' == m && f' == Sweeping(m.agents.Keys, 0))
    || (f.Sweeping? && m' == m
          && exists id :: id in f.todo && id in m.agents && f' == Visit(threshold, now, f, m, id))
    || (f.Marking? && m' == m.(agents := m.agents[f.id := f.agent]) && f' == Sweeping(f.todo, f.count + 1))
    || (f.Sweeping? && f.todo == {} && m' == m && f' == Return(Marked(f.count)))
  }

  // ---- What a frame knows ----

  /** `q` is the abstract store at the moment the lock was taken. */
  ghost predicate FrameOk(op: Op, q: Queue, f: Frame, m: Mem)
    requires WellFormed(q)
  {
    match f
    case Enter => Refines(m, q)
    case Appending =>
      && op.OpCreate? && Find(q.jobs, op.job.id) == |q.jobs|
      && Refines(m.(order := m.order + [op.job.id]), q.(jobs := q.jobs + [op.job]))
    case Listing(i, result) => op.OpList? && Refines(m, q) && i <= |q.jobs| && result == q.jobs[..i]
    case Filling(i, capSet) =>
      && op.OpAssign? && Refines(m, q) && op.agentId in m.agents
      && i <= |op.capabilities| && capSet == CapSet(op.capabilities[..i])
    case Walking(capSet, i) =>
      && op.OpAssign? && Refines(m, q) && op.agentId in m.agents
      && capSet == CapSet(op.capabilities) && Skipped(q, capSet, i)
    case Writing(id, job, reply) =>
      (op.OpAssign? || op.OpCancel? || op.OpComplete?) && Lands(op, q, m.(jobs := m.jobs[id := job]), reply)
    case WritingAgent(id, agent) =>
      op.OpBeat? && id in m.agents && Lands(op, q, m.(agents := m.agents[id := agent]), Done)
    case Collecting(todo, found) =>
      op.OpAgents? && Refines(m, q) && todo <= m.agents.Keys && Collected(m.agents, todo, found)
    case Sweeping(todo, count) =>
      && op.OpSweep? && MidSweep(op.threshold, op.now, q, todo, m)
      && count == MarkedSoFar(q.agents, op.threshold, op.now, todo)
    case Marking(todo, count, id, agent) =>
      && op.OpSweep? && id in q.agents && id !in todo && Stale(q.agents[id], op.threshold, op.now)
      && agent == q.agents[id].(status := Offline)
      && MidSweep(op.threshold, op.now, q, todo + {id}, m)
      && count == MarkedSoFar(q.agents, op.threshold, op.now, todo + {id})
    case Return(reply) => Lands(op, q, m, reply)
  }

  ghost predicate MidSweep(threshold: Time, now: Time, q: Queue, todo: set<string>, m: Mem) {
    && Represents(m.jobs, m.order, q.jobs) && Keyed(q.agents) && todo <= q.agents.Keys
    && m.agents == PartlySwept(q.agents, threshold, now, todo)
  }

  /** The fields and the reply are those of the atomic method on `q`. */
  ghost predicate Lands(op: Op, q: Queue, m: Mem, reply: Reply)
    requires WellFormed(q)
  {
    Refines(m, Apply(q, op).0) && reply == Apply(q, op).1
  }

  // ---- Each statement keeps what its frame knows ----

  lemma CreateKeeps(op: Op, q: Queue, f: Frame, m: Mem, f': Frame, m': Mem)
    requires WellFormed(q) && FrameOk(op, q, f, m) && op.OpCreate? && CreateStatement(op.job, f, m, f', m')
    ensures FrameOk(op, q, f', m')
  {
    if f.Enter? {
      LookupRefines(m, q, op.job.id);
      if op.job.id !in m.jobs {
        AppendRefines(m, q, op.job);
        assert m'.(order := m'.order + [op.job.id])
            == Mem(m.jobs[op.job.id := op.job], m.order + [op.job.id], m.agents);
      }
    }
  }

  lemma ListKeeps(op: Op, q: Queue, f: Frame, m: Mem, f': Frame)
    requires WellFormed(q) && FrameOk(op, q, f, m) && op.OpList? && ListStatement(f, m, f')
    ensures FrameOk(op, q, f', m)
  {
    if f.Listing? && f.i < |m.order| {
      assert q.jobs[..f.i + 1] == q.jobs[..f.i] + [q.jobs[f.i]];
    } else if f.Listing? {
      assert q.jobs[..|q.jobs|] == q.jobs;
    }
  }

  lemma CancelKeeps(op: Op, q: Queue, f: Frame, m: Mem, f': Frame)
    requires WellFormed(q) && FrameOk(op, q, f, m) && op.OpCancel? && CancelEnters(op.jobId, op.now, f, m, f')
    ensures FrameOk(op, q, f', m)
  {
    LookupRefines(m, q, op.jobId);
    if op.jobId in m.jobs {
      WriteRefines(m, q, op.jobId, CanceledAt(m.jobs[op.jobId], op.now));
    }
  }

  lemma CompleteKeeps(op: Op, q: Queue, f: Frame, m: Mem, f': Frame)
    requires WellFormed(q) && FrameOk(op, q, f, m) && op.OpComplete?
    requires CompleteEnters(op.jobId, op.answer, op.now, f, m, f')
    ensures FrameOk(op, q, f', m)
  {
    LookupRefines(m, q, op.jobId);
    if op.jobId in m.jobs {
      WriteRefines(m, q, op.jobId, Completed(m.jobs[op.jobId], op.answer, op.now));
    }
  }

  lemma AssignKeeps(op: Op, q: Queue, f: Frame, m: Mem, f': Frame)
    requires WellFormed(q) && FrameOk(op, q, f, m) && op.OpAssign?
    requires AssignStatement(op.agentId, op.capabilities, op.now, f, m, f')
    ensures FrameOk(op, q, f', m)
  {
    var caps := op.capabilities;
    if f.Filling? {
      if f.i < |caps| {
        assert caps[..f.i + 1] == caps[..f.i] + [caps[f.i]];
      } else {
        assert caps[..f.i] == caps;
      }
    } else if f.Walking? {
      if f.i >= |m.order| {
        WalkEnds(q, op.agentId, caps, op.now);
      } else if m.order[f.i] in m.jobs && Matches(m.jobs[m.order[f.i]], f.capSet) {
        WalkAssigns(m, q, op.agentId, caps, f.i, op.now);
      }
    }
  }

  lemma BeatKeeps(op: Op, q: Queue, f: Frame, m: Mem, f': Frame, m': Mem)
    requires WellFormed(q) && FrameOk(op, q, f, m) && op.OpBeat? && BeatStatement(op.agentId, op.now, f, m, f', m')
    ensures FrameOk(op, q, f', m')
  {
  }

  lemma AgentsKeeps(op: Op, q: Queue, f: Frame, m: Mem, f': Frame)
    requires WellFormed(q) && FrameOk(op, q, f, m) && op.OpAgents? && AgentsStatement(f, m, f')
    ensures FrameOk(op, q, f', m)
  {
    if f.Collecting? && f'.Collecting? {
      var id :| id in f.todo && id in m.agents && f' == Collecting(f.todo - {id}, f.found + [m.agents[id]]);
      CollectOne(m.agents, f.todo, f.found, id);
    } else if f.Collecting? {
      SortedCollectionLists(m.agents, f.found, f'.reply.agents);
      ListingIsUnique(m.agents, f'.reply.agents, AgentOrder.Listing(m.agents));
    }
  }

  lemma VisitKeeps(op: Op, q: Queue, f: Frame, m: Mem, id: string)
    requires WellFormed(q) && op.OpSweep? && f.Sweeping? && FrameOk(op, q, f, m) && id in f.todo && id in m.agents
    ensures FrameOk(op, q, Visit(op.threshold, op.now, f, m, id), m)
  {
    SweepOne(q.agents, op.threshold, op.now, f.todo, id);
    assert f.todo - {id} + {id} == f.todo;
    assert Stale(q.agents[id], op.threshold, op.now) <==> Stale(m.agents[id], op.threshold, op.now);
  }

  lemma MarkKeeps(op: Op, q: Queue, f: Frame, m: Mem)
    requires WellFormed(q) && op.OpSweep? && f.Marking? && FrameOk(op, q, f, m)
    ensures FrameOk(op, q, Sweeping(f.todo, f.count + 1), m.(agents := m.agents[f.id := f.agent]))
  {
    SweepOne(q.agents, op.threshold, op.now, f.todo + {f.id}, f.id);
    assert f.todo + {f.id} - {f.id} == f.todo;
  }

  lemma SweepKeeps(op: Op, q: Queue, f: Frame, m: Mem, f': Frame, m': Mem)
    requires WellFormed(q) && FrameOk(op, q, f, m) && op.OpSweep? && SweepStatement(op.threshold, op.now, f, m, f', m')
    ensures FrameOk(op, q, f', m')
  {
    if f.Enter? {
      SweepStarts(m.agents, op.threshold, op.now);
    } else if f.Marking? {
      MarkKeeps(op, q, f, m);
    } else if f'.Return? {
      SweepEnds(q.agents, op.threshold, op.now);
    } else {
      var id :| id in f.todo && id in m.agents && f' == Visit(op.threshold, op.now, f, m, id);
      VisitKeeps(op, q, f, m, id);
    }
  }

  lemma StatementKeeps(op: Op, q: Queue, f: Frame, m: Mem, f': Frame, m': Mem)
    requires WellFormed(q) && FrameOk(op, q, f, m) && Statement(op, f, m, f', m')
    ensures FrameOk(op, q, f', m')
  {
    match op
    case OpCreate(_) => CreateKeeps(op, q, f, m, f', m');
    case OpList => ListKeeps(op, q, f, m, f');
    case OpGet(id) => LookupRefines(m, q, id);
    case OpCancel(_, _) =>
      if !f.Writing? {
        CancelKeeps(op, q, f, m, f');
      }
    case OpRegister(_) =>
    case OpBeat(_, _) => BeatKeeps(op, q, f, m, f', m');
    case OpAgents => AgentsKeeps(op, q, f, m, f');
    case OpAssign(_, _, _) =>
      if !f.Writing? {
        AssignKeeps(op, q, f, m, f');
      }
    case OpComplete(_, _, _) =>
      if !f.Writing? {
        CompleteKeeps(op, q, f, m, f');
      }
    case OpSweep(_, _) => SweepKeeps(op, q, f, m, f', m');
  }

  // ---- A body ends and is never stuck ----

  function Requested(op: Op): nat {
    if op.OpAssign? then |op.capabilities| else 0
  }

  /** Statements the body can still execute. */
  function StatementsLeft(op: Op, f: Frame, m: Mem): int {
    match f
    case Enter => |m.order| + Requested(op) + 2 * |m.agents| + 4
    case Appending => 1
    case Listing(i, _) => |m.order| - i + 1
    case Filling(i, _) => Requested(op) - i + |m.order| + 3
    case Walking(_, i) => |m.order| - i + 2
    case Writing(_, _, _) => 1
    case WritingAgent(_, _) => 1
    case Collecting(todo, _) => |todo| + 1
    case Sweeping(todo, _) => 2 * |todo| + 1
    case Marking(todo, _, _, _) => 2 * |todo| + 2
    case Return(_) => 0
  }

  lemma CollectingEnds(op: Op, f: Frame, m: Mem, f': Frame)
    requires op.OpAgents? && AgentsStatement(f, m, f')
    ensures 0 <= StatementsLeft(op, f', m) < StatementsLeft(op, f, m)
  {
    if f.Collecting? && f'.Collecting? {
      var id :| id in f.todo && id in m.agents && f' == Collecting(f.todo - {id}, f.found + [m.agents[id]]);
      assert |f.todo - {id}| == |f.todo| - 1;
    }
    assert |m.agents.Keys| == |m.agents|;
  }

  lemma SweepingEnds(op: Op, f: Frame, m: Mem, f': Frame, m': Mem)
    requires op.OpSweep? && SweepStatement(op.threshold, op.now, f, m, f', m')
    ensures 0 <= StatementsLeft(op, f', m') < StatementsLeft(op, f, m)
  {
    if f.Sweeping? && !f'.Return? {
      var id :| id in f.todo && id in m.agents && f' == Visit(op.threshold, op.now, f, m, id);
      assert |f.todo - {id}| == |f.todo| - 1;
    }
    assert |m.agents.Keys| == |m.agents|;
  }

  lemma WalkingEnds(op: Op, q: Queue, f: Frame, m: Mem, f': Frame)
    requires WellFormed(q) && FrameOk(op, q, f, m) && op.OpAssign?
    requires AssignStatement(op.agentId, op.capabilities, op.now, f, m, f')
    ensures 0 <= StatementsLeft(op, f', m) < StatementsLeft(op, f, m)
  {
  }

  lemma ListingEnds(op: Op, q: Queue, f: Frame, m: Mem, f': Frame)
    requires WellFormed(q) && FrameOk(op, q, f, m) && op.OpList? && ListStatement(f, m, f')
    ensures 0 <= StatementsLeft(op, f', m) < StatementsLeft(op, f, m)
  {
  }

  lemma CreateEnds(op: Op, f: Frame, m: Mem, f': Frame, m': Mem)
    requires op.OpCreate? && CreateStatement(op.job, f, m, f', m')
    ensures 0 <= StatementsLeft(op, f', m') < StatementsLeft(op, f, m)
  {
  }

  lemma BeatEnds(op: Op, f: Frame, m: Mem, f': Frame, m': Mem)
    requires op.OpBeat? && BeatStatement(op.agentId, op.now, f, m, f', m')
    ensures 0 <= StatementsLeft(op, f', m') < StatementsLeft(op, f, m)
  {
  }

  /** The methods without a loop, and the last statement of AssignNextJob. */
  lemma WritingEnds(op: Op, f: Frame, m: Mem, f': Frame, m': Mem)
    requires op.OpGet? || op.OpCancel? || op.OpRegister? || op.OpComplete? || (op.OpAssign? && f.Writing?)
    requires Statement(op, f, m, f', m')
    ensures 0 <= StatementsLeft(op, f', m') < StatementsLeft(op, f, m)
  {
  }

  /** Every statement brings the end of the body nearer: the lock is held for boundedly many statements. */
  lemma BodyEnds(op: Op, q: Queue, f: Frame, m: Mem, f': Frame, m': Mem)
    requires WellFormed(q) && FrameOk(op, q, f, m) && Statement(op, f, m, f', m')
    ensures 0 <= StatementsLeft(op, f', m') < StatementsLeft(op, f, m)
  {
    match op
    case OpCreate(_) => CreateEnds(op, f, m, f', m');
    case OpList => ListingEnds(op, q, f, m, f');
    case OpBeat(_, _) => BeatEnds(op, f, m, f', m');
    case OpAgents => CollectingEnds(op, f, m, f');
    case OpAssign(_, _, _) =>
      if f.Writing? {
        WritingEnds(op, f, m, f', m');
      } else {
        WalkingEnds(op, q, f, m, f');
      }
    case OpSweep(_, _) => SweepingEnds(op, f, m, f', m');
    case _ => WritingEnds(op, f, m, f', m');
  }

  lemma CollectingGoesOn(f: Frame, m: Mem) returns (f': Frame)
    requires f.Collecting? && f.todo <= m.agents.Keys
    ensures AgentsStatement(f, m, f')
  {
    if id :| id in f.todo {
      f' := Collecting(f.todo - {id}, f.found + [m.agents[id]]);
    } else {
      f' := Return(AgentList(SortById(f.found)));
    }
  }

  lemma SweepingGoesOn(threshold: Time, now: Time, f: Frame, m: Mem) returns (f': Frame)
    requires f.Sweeping? && f.todo <= m.agents.Keys
    ensures SweepStatement(threshold, now, f, m, f', m)
  {
    if id :| id in f.todo {
      f' := Visit(threshold, now, f, m, id);
    } else {
      f' := Return(Marked(f.count));
    }
  }

  lemma WalkingGoesOn(op: Op, f: Frame, m: Mem) returns (f': Frame)
    requires op.OpAssign? && (f.Filling? || f.Walking?)
    ensures AssignStatement(op.agentId, op.capabilities, op.now, f, m, f')
  {
    if f.Filling? {
      f' := if f.i < |op.capabilities| then Filling(f.i + 1, f.capSet + {op.capabilities[f.i]})
            else Walking(f.capSet, 0);
    } else if f.i >= |m.order| {
      f' := Return(NoJob);
    } else {
      var id := m.order[f.i];
      f' := if id in m.jobs && Matches(m.jobs[id], f.capSet)
            then Writing(id, Assigned(m.jobs[id], op.agentId, op.now), OneJob(Assigned(m.jobs[id], op.agentId, op.now)))
            else Walking(f.capSet, f.i + 1);
    }
  }

  lemma StoringGoesOn(op: Op, q: Queue, f: Frame, m: Mem) returns (f': Frame, m': Mem)
    requires WellFormed(q) && FrameOk(op, q, f, m)
    requires f.Appending? || f.Writing? || f.WritingAgent? || f.Marking?
    ensures Statement(op, f, m, f', m')
  {
    match f
    case Appending => f', m' := Return(OneJob(op.job)), m.(order := m.order + [op.job.id]);
    case Writing(id, job, reply) => f', m' := Return(reply), m.(jobs := m.jobs[id := job]);
    case WritingAgent(id, agent) => f', m' := Return(Done), m.(agents := m.agents[id := agent]);
    case Marking(todo, count, id, agent) => f', m' := Sweeping(todo, count + 1), m.(agents := m.agents[id := agent]);
  }

  /** A body that has not returned has a next statement. */
  lemma BodyIsNeverStuck(op: Op, q: Queue, f: Frame, m: Mem) returns (f': Frame, m': Mem)
    requires WellFormed(q) && FrameOk(op, q, f, m) && !f.Return?
    ensures Statement(op, f, m, f', m')
  {
    m' := m;
    match f
    case Enter => f', m' := Entered(op, m);
    case Listing(i, listed) =>
      f' := if i >= |m.order| then Return(JobList(listed))
            else Listing(i + 1, if m.order[i] in m.jobs then listed + [m.jobs[m.order[i]]] else listed);
    case Filling(_, _) => f' := WalkingGoesOn(op, f, m);
    case Walking(_, _) => f' := WalkingGoesOn(op, f, m);
    case Collecting(_, _) => f' := CollectingGoesOn(f, m);
    case Sweeping(_, _) => f' := SweepingGoesOn(op.threshold, op.now, f, m);
    case _ => f', m' := StoringGoesOn(op, q, f, m);
  }

  lemma Entered(op: Op, m: Mem) returns (f': Frame, m': Mem)
    ensures Statement(op, Enter, m, f', m')
  {
    m' := m;
    match op
    case OpCreate(job) =>
      if job.id in m.jobs {
        f' := Return(Refused(JobExists(job.id)));
      } else {
        f', m' := Appending, m.(jobs := m.jobs[job.id := job]);
      }
    case OpList => f' := Listing(0, []);
    case OpGet(id) => f' := Return(FoundReply(if id in m.jobs then Some(m.jobs[id]) else None));
    case OpCancel(id, now) =>
      f' := if id !in m.jobs then Return(Refused(JobNotFound(id)))
            else if m.jobs[id].status.IsTerminal() then Return(Refused(JobTerminal(id, m.jobs[id].status)))
            else Writing(id, CanceledAt(m.jobs[id], now), Done);
    case OpRegister(agent) => f', m' := Return(OneAgent(agent)), m.(agents := m.agents[agent.id := agent]);
    case OpBeat(agentId, now) =>
      f' := if agentId !in m.agents then Return(Refused(AgentNotFound(agentId)))
            else WritingAgent(agentId, m.agents[agentId].(lastSeen := now, status := Online));
    case OpAgents => f' := Collecting(m.agents.Keys, []);
    case OpAssign(agentId, _, _) =>
      f' := if agentId !in m.agents then Return(Refused(AgentNotFound(agentId))) else Filling(0, {});
    case OpComplete(id, answer, now) =>
      f' := if id !in m.jobs then Return(Refused(JobNotFound(id)))
            else Writing(id, Completed(m.jobs[id], answer, now), Done);
    case OpSweep(_, _) => f' := Sweeping(m.agents.Keys, 0);
  }
}
