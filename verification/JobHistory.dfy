/** What every sequence of store calls keeps, whoever the callers are. */
module JobHistory {
  import opened Wrappers
  import opened Model
  import opened JobQueue

  /** The fields that only creation sets. */
  predicate SameRequest(a: Job, b: Job) {
    && a.id == b.id && a.name == b.name && a.jobType == b.jobType && a.payload == b.payload
    && a.createdAt == b.createdAt && a.maxRetries == b.maxRetries && a.timeoutSeconds == b.timeoutSeconds
  }

  /** Jobs are never removed or reordered, and keep what their creation fixed. */
  lemma {:induction false} OrderOnlyGrows(q: Queue, ops: seq<Op>)
    requires WellFormed(q)
    ensures var jobs := Replay(q, ops).jobs;
      |q.jobs| <= |jobs| && forall k | 0 <= k < |q.jobs| :: SameRequest(q.jobs[k], jobs[k])
  {
    if ops != [] {
      var n := |ops| - 1;
      OrderOnlyGrows(q, ops[..n]);
      EachJobAfter(Replay(q, ops[..n]), ops[n]);
    }
  }

  /** A job once seen stays findable, at the same position, whatever the callers do. */
  lemma JobsStayFindable(q: Queue, ops: seq<Op>, id: string)
    requires WellFormed(q) && Get(q, id).Some?
    ensures Find(Replay(q, ops).jobs, id) == Find(q.jobs, id)
    ensures Get(Replay(q, ops), id).Some?
    ensures forall answer, now :: Complete(Replay(q, ops), id, answer, now).1 == Ok(())
  {
    OrderOnlyGrows(q, ops);
    FindAt(Replay(q, ops).jobs, Find(q.jobs, id));
  }

  /** Job `k` of the final state as it was when it was first stored. */
  ghost function Original(q: Queue, ops: seq<Op>, k: nat): Job
    requires WellFormed(q) && k < |Replay(q, ops).jobs|
  {
    if ops == [] then q.jobs[k]
    else
      var before := ops[..|ops| - 1];
      if k < |Replay(q, before).jobs| then Original(q, before, k) else Replay(q, ops).jobs[k]
  }

  /** The call gave out the job with this ID. */
  ghost predicate HandsOut(q: Queue, op: Op, id: string)
    requires WellFormed(q)
  {
    op.OpAssign? && var reply := Apply(q, op).1; reply.OneJob? && reply.job.id == id
  }

  /** The call recorded a result for the job with this ID. */
  ghost predicate Records(q: Queue, op: Op, id: string)
    requires WellFormed(q)
  {
    op.OpComplete? && op.jobId == id && Apply(q, op).1 == Done
  }

  /** How often the job was given out. */
  ghost function HandOuts(q: Queue, ops: seq<Op>, id: string): nat
    requires WellFormed(q)
  {
    if ops == [] then 0
    else
      var n := |ops| - 1;
      HandOuts(q, ops[..n], id) + if HandsOut(Replay(q, ops[..n]), ops[n], id) then 1 else 0
  }

  /** The answers recorded for the job, in order. */
  ghost function Recorded(q: Queue, ops: seq<Op>, id: string): seq<Answer>
    requires WellFormed(q)
  {
    if ops == [] then []
    else
      var n := |ops| - 1;
      Recorded(q, ops[..n], id) + if Records(Replay(q, ops[..n]), ops[n], id) then [ops[n].answer] else []
  }

  function AllLogs(answers: seq<Answer>): seq<string> {
    if answers == [] then [] else AllLogs(answers[..|answers| - 1]) + answers[|answers| - 1].logs
  }

  lemma AllLogsSnoc(answers: seq<Answer>, a: Answer)
    ensures AllLogs(answers + [a]) == AllLogs(answers) + a.logs
  {
    assert (answers + [a])[..|answers|] == answers;
  }

  /** A call on a store without the job neither gives it out nor records anything for it. */
  lemma NothingWithoutTheJob(p: Queue, op: Op, id: string)
    requires WellFormed(p) && Find(p.jobs, id) == |p.jobs|
    ensures !HandsOut(p, op, id) && !Records(p, op, id)
  {
  }

  /** A job absent after a call was absent before it. */
  lemma AbsentBefore(p: Queue, op: Op, id: string)
    requires WellFormed(p) && Find(Apply(p, op).0.jobs, id) == |Apply(p, op).0.jobs|
    ensures Find(p.jobs, id) == |p.jobs|
  {
    EachJobAfter(p, op);
    assert forall k | 0 <= k < |p.jobs| :: Apply(p, op).0.jobs[k].id == p.jobs[k].id;
  }

  /** Nothing is given out or recorded for a job that does not exist yet. */
  lemma {:induction false} NothingBeforeCreation(q: Queue, ops: seq<Op>, id: string)
    requires WellFormed(q) && Find(Replay(q, ops).jobs, id) == |Replay(q, ops).jobs|
    ensures HandOuts(q, ops, id) == 0 && Recorded(q, ops, id) == []
  {
    if ops != [] {
      var n := |ops| - 1;
      var p := Replay(q, ops[..n]);
      AbsentBefore(p, ops[n], id);
      NothingWithoutTheJob(p, ops[n], id);
      NothingBeforeCreation(q, ops[..n], id);
    }
  }

  /** The record is what it was first, moved on by this many hand-outs and these answers. */
  predicate Folds(first: Job, job: Job, handOuts: nat, answers: seq<Answer>) {
    && SameRequest(first, job)
    && job.attemptCount == first.attemptCount + handOuts
    && job.logs == first.logs + AllLogs(answers)
    && job.result == (if answers == [] then first.result else answers[|answers| - 1].result)
    && job.error == (if answers == [] then first.error else answers[|answers| - 1].error)
  }

  /** A job that a call adds is the created one, under a new ID. */
  lemma AddedJob(p: Queue, op: Op, k: nat)
    requires WellFormed(p) && |p.jobs| <= k < |Apply(p, op).0.jobs|
    ensures op.OpCreate? && Apply(p, op).0.jobs[k] == op.job && Find(p.jobs, op.job.id) == |p.jobs|
  {
    EachJobAfter(p, op);
  }

  /** Being given out and being recorded, seen from the job. */
  lemma RepliesAboutJob(p: Queue, op: Op, k: nat)
    requires WellFormed(p) && k < |p.jobs|
    ensures HandsOut(p, op, p.jobs[k].id) <==>
      op.OpAssign? && op.agentId in p.agents && FirstMatch(p.jobs, CapSet(op.capabilities)) == k
    ensures Records(p, op, p.jobs[k].id) <==> op.OpComplete? && op.jobId == p.jobs[k].id
  {
    FindAt(p.jobs, k);
    if op.OpAssign? {
      IdIsFoundAtOnePlace(p.jobs, p.jobs[k].id);
    }
  }

  lemma FoldsAfterCall(p: Queue, op: Op, k: nat, first: Job, handOuts: nat, answers: seq<Answer>)
    requires WellFormed(p) && k < |p.jobs| && Folds(first, p.jobs[k], handOuts, answers)
    ensures Folds(first, JobAfter(p, op, k),
                  handOuts + (if HandsOut(p, op, p.jobs[k].id) then 1 else 0),
                  answers + (if Records(p, op, p.jobs[k].id) then [op.answer] else []))
  {
    RepliesAboutJob(p, op, k);
    if Records(p, op, p.jobs[k].id) {
      AllLogsSnoc(answers, op.answer);
      assert p.jobs[k].logs + op.answer.logs == first.logs + (AllLogs(answers) + op.answer.logs);
    } else {
      assert answers + [] == answers;
    }
  }

  /**
   * The history of one job: AttemptCount counts the hand-outs, Logs is the concatenation of the logs of all
   * recorded results in order, and Result and Error are those of the last one, across retries, cancels and
   * reassignments.
   */
  lemma {:induction false} HistoryFold(q: Queue, ops: seq<Op>, k: nat)
    requires WellFormed(q) && k < |Replay(q, ops).jobs|
    ensures var job := Replay(q, ops).jobs[k];
      Folds(Original(q, ops, k), job, HandOuts(q, ops, job.id), Recorded(q, ops, job.id))
  {
    if ops == [] {
      assert q.jobs[k].logs + [] == q.jobs[k].logs;
    } else {
      var n := |ops| - 1;
      var p := Replay(q, ops[..n]);
      if k < |p.jobs| {
        HistoryFold(q, ops[..n], k);
        EachJobAfter(p, ops[n]);
        var id := p.jobs[k].id;
        FoldsAfterCall(p, ops[n], k, Original(q, ops[..n], k), HandOuts(q, ops[..n], id), Recorded(q, ops[..n], id));
      } else {
        AddedJob(p, ops[n], k);
        var id := ops[n].job.id;
        NothingBeforeCreation(q, ops[..n], id);
        NothingWithoutTheJob(p, ops[n], id);
        assert ops[n].job.logs + [] == ops[n].job.logs;
      }
    }
  }

  // ---- Is a terminal state final? ----

  /** The calls a handler can make: results are validated to be SUCCESS or FAILED. */
  predicate Validated(op: Op) {
    op.OpComplete? ==> op.answer.status == Success || op.answer.status == Failed
  }

  /** One validated call on a terminal job without retries: it stays so. */
  lemma UsedUpStep(q: Queue, op: Op, k: nat)
    requires WellFormed(q) && k < |q.jobs| && Validated(op)
    requires q.jobs[k].status.IsTerminal() && q.jobs[k].attemptCount >= q.jobs[k].maxRetries
    ensures var jobs := Apply(q, op).0.jobs;
      k < |jobs| && jobs[k].status.IsTerminal() && jobs[k].attemptCount >= jobs[k].maxRetries
  {
    EachJobAfter(q, op);
  }

  lemma {:induction false} UsedUpStaysTerminal(q: Queue, ops: seq<Op>, k: nat)
    requires WellFormed(q) && k < |q.jobs| && forall n | 0 <= n < |ops| :: Validated(ops[n])
    requires q.jobs[k].status.IsTerminal() && q.jobs[k].attemptCount >= q.jobs[k].maxRetries
    ensures var jobs := Replay(q, ops).jobs;
      k < |jobs| && jobs[k].status.IsTerminal() && jobs[k].attemptCount >= jobs[k].maxRetries
  {
    if ops != [] {
      var n := |ops| - 1;
      UsedUpStaysTerminal(q, ops[..n], k);
      UsedUpStep(Replay(q, ops[..n]), ops[n], k);
    }
  }

  /** The calls are validated, and after them the job is not terminal. */
  ghost predicate Revives(q: Queue, ops: seq<Op>, k: nat)
    requires WellFormed(q)
  {
    && (forall n | 0 <= n < |ops| :: Validated(ops[n]))
    && k < |Replay(q, ops).jobs| && !Replay(q, ops).jobs[k].status.IsTerminal()
  }

  lemma LateFailureRevivesJob(q: Queue, k: nat) returns (ops: seq<Op>)
    requires WellFormed(q) && k < |q.jobs| && q.jobs[k].attemptCount < q.jobs[k].maxRetries
    ensures Revives(q, ops, k)
  {
    var late := OpComplete(q.jobs[k].id, Answer(Failed, [], None, ""), 0);
    ops := [late];
    EachJobAfter(q, late);
    assert ops[..0] == [];
    assert Replay(q, ops) == Apply(q, late).0;
  }

  /**
   * For arbitrary callers: some sequence of calls brings a terminal job back exactly while its retries are not
   * used up. Once they are, no sequence of calls ever does.
   */
  lemma TerminalIsFinalIffRetriesUsedUp(q: Queue, k: nat)
    requires WellFormed(q) && k < |q.jobs| && q.jobs[k].status.IsTerminal()
    ensures (exists ops :: Revives(q, ops, k)) <==> q.jobs[k].attemptCount < q.jobs[k].maxRetries
  {
    if q.jobs[k].attemptCount < q.jobs[k].maxRetries {
      var ops := LateFailureRevivesJob(q, k);
    } else {
      forall ops
        ensures !Revives(q, ops, k)
      {
        if forall n | 0 <= n < |ops| :: Validated(ops[n]) {
          UsedUpStaysTerminal(q, ops, k);
        }
      }
    }
  }
}
