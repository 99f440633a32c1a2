/**
 * The store's threads under the clients the protocol describes: every interleaving of their calls is a run of the
 * protocol, so what holds of all runs holds of the interleaved statements.
 */
module Composition {
  import opened Wrappers
  import opened Model
  import opened JobQueue
  import opened MemoryStore
  import opened Linearizability
  import opened Requests
  import opened Protocol
  import Finality
  import JobHistory

  const EMPTY := Queue([], map[])

  // ---- Well-behaved clients ----

  /** The clock reading the call carries. */
  function Stamp(op: Op): Option<Time> {
    match op
    case OpCreate(job) => Some(job.createdAt)
    case OpRegister(agent) => Some(agent.lastSeen)
    case OpBeat(_, now) => Some(now)
    case OpAssign(_, _, now) => Some(now)
    case OpComplete(_, _, now) => Some(now)
    case OpCancel(_, now) => Some(now)
    case OpSweep(_, now) => Some(now)
    case _ => None
  }

  /** A poll whose reply gave out the job. */
  predicate Gives(e: Entry, id: string) {
    e.op.OpAssign? && e.reply.OneJob? && e.reply.job.id == id
  }

  /** A result handed in for the job. */
  predicate Answers(e: Entry, id: string) {
    e.op.OpComplete? && e.op.jobId == id
  }

  /** How often the first `n` calls gave out the job. */
  function Given(log: seq<Entry>, n: nat, id: string): nat
    requires n <= |log|
  {
    if n == 0 then 0 else Given(log, n - 1, id) + if Gives(log[n - 1], id) then 1 else 0
  }

  /** How often the first `n` calls handed in a result for the job. */
  function Answered(log: seq<Entry>, n: nat, id: string): nat
    requires n <= |log|
  {
    if n == 0 then 0 else Answered(log, n - 1, id) + if Answers(log[n - 1], id) then 1 else 0
  }

  /**
   * Call `n` is one a client may make after the calls before it: the handlers have validated the request, and a
   * result answers one of the replies that gave out its job. Clock readings are arbitrary.
   */
  ghost predicate Proper(threshold: Time, log: seq<Entry>, n: nat)
    requires n < |log|
  {
    match log[n].op
    case OpCreate(job) => job.id != "" && exists r :: AcceptsCreate(r) && job == NewJob(r, job.id, job.createdAt)
    case OpRegister(agent) => exists r :: AcceptsRegister(r) && agent == NewAgent(r, agent.lastSeen)
    case OpComplete(id, answer, _) => AcceptsResult(answer) && Answered(log, n, id) < Given(log, n, id)
    case OpSweep(silence, _) => silence == threshold
    case _ => true
  }

  ghost predicate Traffic(threshold: Time, log: seq<Entry>) {
    forall n | 0 <= n < |log| :: Proper(threshold, log, n)
  }

  // ---- One logged call is one step of the protocol ----

  /** Every hand-out of the job was answered, but one if it is in flight. */
  ghost predicate Balances(s: Sys, log: seq<Entry>, n: nat, id: string)
    requires n <= |log|
  {
    Given(log, n, id) == Answered(log, n, id) + if Outstanding(s.inflight, id) then 1 else 0
  }

  /** `s` is the protocol state after the first `n` calls. */
  ghost predicate Mirrors(s: Sys, threshold: Time, log: seq<Entry>, n: nat)
    requires n <= |log|
  {
    && Inv(s) && s.threshold == threshold && s.queue == After(EMPTY, log, n)
    && forall id :: Balances(s, log, n, id)
  }

  /** Each call but a read has its event in the protocol. */
  lemma EventOf(s: Sys, threshold: Time, log: seq<Entry>, n: nat) returns (step: Step)
    requires n < |log| && Mirrors(s, threshold, log, n)
    requires Proper(threshold, log, n) && !log[n].op.Reads()
    ensures Enabled(s, step) && CallOf(s, step) == Some(log[n].op) && Stamp(log[n].op) == Some(step.now)
  {
    var op, event := log[n].op, HealthCheck;
    match op {
      case OpCreate(job) =>
        var r :| AcceptsCreate(r) && job == NewJob(r, job.id, job.createdAt);
        event := Submit(job.id, r);
      case OpRegister(agent) =>
        var r :| AcceptsRegister(r) && agent == NewAgent(r, agent.lastSeen);
        event := Join(r);
      case OpBeat(agentId, _) => event := Beats(agentId);
      case OpAssign(agentId, caps, _) => event := Poll(agentId, caps);
      case OpComplete(id, answer, _) =>
        assert Balances(s, log, n, id);
        var a :| 0 <= a < |s.inflight| && s.inflight[a].jobId == id;
        event := Deliver(a, answer);
      case OpCancel(id, _) => event := Revoke(id);
      case OpSweep(_, _) =>
    }
    step := Step(Stamp(op).value, event);
  }

  /** Hand-outs and results move the attempts in flight as the log counts them. */
  lemma StepMovesOutstanding(s: Sys, step: Step, e: Entry, id: string)
    requires Inv(s) && Enabled(s, step) && CallOf(s, step) == Some(e.op) && e.reply == Apply(s.queue, e.op).1
    ensures Gives(e, id) ==> !Outstanding(s.inflight, id) && Outstanding(Next(s, step).inflight, id)
    ensures Answers(e, id) ==> Outstanding(s.inflight, id) && !Outstanding(Next(s, step).inflight, id)
    ensures !Gives(e, id) && !Answers(e, id) ==>
      (Outstanding(Next(s, step).inflight, id) <==> Outstanding(s.inflight, id))
  {
    match step.event
    case Poll(_, _) => PollMovesOutstanding(s, step, e, id);
    case Deliver(k, _) => Finality.WithoutHolds(s.inflight, k, id);
    case _ =>
  }

  lemma PollMovesOutstanding(s: Sys, step: Step, e: Entry, id: string)
    requires Inv(s) && Enabled(s, step) && CallOf(s, step) == Some(e.op) && e.reply == Apply(s.queue, e.op).1
    requires step.event.Poll?
    ensures Gives(e, id) ==> !Outstanding(s.inflight, id)
    ensures Outstanding(Next(s, step).inflight, id) <==> Outstanding(s.inflight, id) || Gives(e, id)
  {
    var s' := Next(s, step);
    PollStartsOneAttempt(s, step);
    if s'.inflight != s.inflight {
      var n := |s.inflight|;
      assert s'.inflight == s'.inflight[..n] + [s'.inflight[n]];
    }
  }

  lemma ReadMirrors(s: Sys, threshold: Time, log: seq<Entry>, n: nat)
    requires n < |log| && Mirrors(s, threshold, log, n) && log[n].op.Reads()
    ensures Mirrors(s, threshold, log, n + 1)
  {
    var next := n + 1;
    forall id
      ensures Balances(s, log, next, id)
    {
      assert Balances(s, log, n, id);
    }
  }

  lemma WriteMirrors(s: Sys, step: Step, threshold: Time, log: seq<Entry>, n: nat)
    requires n < |log| && Mirrors(s, threshold, log, n) && log[n].reply == Apply(After(EMPTY, log, n), log[n].op).1
    requires Enabled(s, step) && CallOf(s, step) == Some(log[n].op) && Stamp(log[n].op) == Some(step.now)
    ensures Mirrors(Next(s, step), threshold, log, n + 1)
  {
    InvNext(s, step);
    var next := n + 1;
    forall id
      ensures Balances(Next(s, step), log, next, id)
    {
      assert Balances(s, log, n, id);
      StepMovesOutstanding(s, step, log[n], id);
    }
  }

  // ---- Every log of well-behaved clients is a run ----

  ghost predicate RunOf(threshold: Time, log: seq<Entry>, n: nat, run: seq<Step>)
    requires n <= |log|
  {
    && Calls(Init(threshold), run) == Writes(log, n)
    && Mirrors(Exec(Init(threshold), run), threshold, log, n)
  }

  /** The clients are well-behaved, and their calls have the replies of this sequential order. */
  ghost predicate Lawful(threshold: Time, log: seq<Entry>) {
    Traffic(threshold, log) && Sequential(EMPTY, log)
  }

  /** Call `n` is proper and has its sequential reply. */
  ghost predicate Fits(threshold: Time, log: seq<Entry>, n: nat)
    requires n < |log|
  {
    Proper(threshold, log, n) && InPlace(EMPTY, log, n)
  }

  lemma LawfulFits(threshold: Time, log: seq<Entry>)
    requires Lawful(threshold, log)
    ensures forall p | 0 <= p < |log| :: Fits(threshold, log, p)
  {
  }

  lemma CallsSnoc(s: Sys, run: seq<Step>, step: Step)
    requires WellFormed(s.queue)
    requires Enabled(Exec(s, run), step) && CallOf(Exec(s, run), step).Some?
    ensures Calls(s, run + [step]) == Calls(s, run) + [CallOf(Exec(s, run), step).value]
  {
    assert (run + [step])[..|run|] == run;
  }

  lemma NothingYet(threshold: Time, log: seq<Entry>)
    ensures RunOf(threshold, log, 0, [])
  {
  }

  lemma OneMore(threshold: Time, log: seq<Entry>, n: nat, run: seq<Step>) returns (longer: seq<Step>)
    requires n < |log| && RunOf(threshold, log, n, run) && Fits(threshold, log, n)
    ensures run <= longer && RunOf(threshold, log, n + 1, longer)
  {
    var s := Exec(Init(threshold), run);
    if log[n].op.Reads() {
      ReadMirrors(s, threshold, log, n);
      longer := run;
    } else {
      var step := EventOf(s, threshold, log, n);
      WriteMirrors(s, step, threshold, log, n);
      longer := run + [step];
      CallsSnoc(Init(threshold), run, step);
      ExecSnoc(Init(threshold), run, step);
    }
  }

  /** A run of the first `n` calls goes on to a run of the first `m`. */
  lemma {:induction false} RunGoesOn(threshold: Time, log: seq<Entry>, n: nat, m: nat, run: seq<Step>)
    returns (longer: seq<Step>)
    requires n <= m <= |log| && RunOf(threshold, log, n, run)
    requires forall p | 0 <= p < |log| :: Fits(threshold, log, p)
    ensures run <= longer && RunOf(threshold, log, m, longer)
  {
    if n == m {
      longer := run;
    } else {
      var before := RunGoesOn(threshold, log, n, m - 1, run);
      longer := OneMore(threshold, log, m - 1, before);
    }
  }

  /** A logged call that gives out the job is a hand-out of the run's calls. */
  lemma HandOutLogged(ops: seq<Op>, e: Entry, id: string)
    requires e.reply == Apply(Replay(EMPTY, ops), e.op).1
    ensures JobHistory.HandOuts(EMPTY, ops + [e.op], id)
         == JobHistory.HandOuts(EMPTY, ops, id) + if Gives(e, id) then 1 else 0
  {
    assert (ops + [e.op])[..|ops|] == ops;
  }

  /** The reply at its place, in terms of the calls that can change the store. */
  lemma ReplyAfterWrites(log: seq<Entry>, n: nat)
    requires n < |log| && Sequential(EMPTY, log)
    ensures log[n].reply == Apply(Replay(EMPTY, Writes(log, n)), log[n].op).1
  {
    assert InPlace(EMPTY, log, n);
    AfterIsReplay(EMPTY, log, n);
  }

  lemma HandOutsStep(ops: seq<Op>, ops': seq<Op>, e: Entry, id: string)
    requires ops' == if e.op.Reads() then ops else ops + [e.op]
    requires e.reply == Apply(Replay(EMPTY, ops), e.op).1
    ensures JobHistory.HandOuts(EMPTY, ops', id)
         == JobHistory.HandOuts(EMPTY, ops, id) + if Gives(e, id) then 1 else 0
  {
    if !e.op.Reads() {
      HandOutLogged(ops, e, id);
    }
  }

  lemma GivenNext(log: seq<Entry>, m: nat, n: nat, id: string)
    requires n == m + 1 <= |log|
    ensures Given(log, n, id) == Given(log, m, id) + if Gives(log[m], id) then 1 else 0
    ensures Writes(log, n) == if log[m].op.Reads() then Writes(log, m) else Writes(log, m) + [log[m].op]
  {
  }

  /** The logged hand-outs are those of the run's calls. */
  lemma {:induction false} GivenAreHandOuts(log: seq<Entry>, n: nat, id: string)
    requires n <= |log| && Sequential(EMPTY, log)
    ensures Given(log, n, id) == JobHistory.HandOuts(EMPTY, Writes(log, n), id)
  {
    if n > 0 {
      var m := n - 1;
      GivenAreHandOuts(log, m, id);
      ReplyAfterWrites(log, m);
      GivenNext(log, m, n, id);
      HandOutsStep(Writes(log, m), Writes(log, n), log[m], id);
    }
  }

  /** Each prefix of a log of well-behaved clients is a run. */
  lemma PrefixIsARun(threshold: Time, log: seq<Entry>, n: nat) returns (run: seq<Step>)
    requires Lawful(threshold, log) && n <= |log|
    ensures RunOf(threshold, log, n, run)
  {
    NothingYet(threshold, log);
    LawfulFits(threshold, log);
    run := RunGoesOn(threshold, log, 0, n, []);
  }

  // ---- The theorems ----

  /**
   * Whatever the interleaving of the threads' statements, if the clients are well-behaved the completed calls that
   * can change the store are the calls of a protocol run, in the order in which the locks were released. The fields
   * are then those of a reachable protocol state, and the attempts in flight are the hand-outs not yet answered.
   */
  lemma EveryInterleavingIsARun(threshold: Time, trace: Trace) returns (run: seq<Step>)
    requires trace.From(EMPTY) && Traffic(threshold, trace.Last().log)
    ensures var c, s := trace.Last(), Exec(Init(threshold), run);
      && Calls(Init(threshold), run) == Writes(c.log, |c.log|)
      && Reachable(s) && Inv(s) && s.queue == After(EMPTY, c.log, |c.log|)
      && (!WriterInside(c) ==> Refines(c.mem, s.queue))
      && forall id :: Balances(s, c.log, |c.log|, id)
  {
    var log := trace.Last().log;
    EveryInterleavingIsSequential(EMPTY, trace);
    run := PrefixIsARun(threshold, log, |log|);
  }

  /**
   * Exclusive execution, said of the replies the threads got: at every point of the log a job has been given out as
   * often as results were handed in for it, or once more; and never more often than its retry budget allows.
   */
  lemma ExclusiveInEveryInterleaving(threshold: Time, trace: Trace, n: nat, id: string)
    requires trace.From(EMPTY) && Traffic(threshold, trace.Last().log) && n <= |trace.Last().log|
    ensures var log := trace.Last().log;
      var jobs := After(EMPTY, log, n).jobs;
      && Answered(log, n, id) <= Given(log, n, id) <= Answered(log, n, id) + 1
      && forall k | 0 <= k < |jobs| && jobs[k].id == id ::
           Given(log, n, id) == jobs[k].attemptCount <= Budget(jobs[k])
  {
    var log := trace.Last().log;
    EveryInterleavingIsSequential(EMPTY, trace);
    var run := PrefixIsARun(threshold, log, n);
    assert Balances(Exec(Init(threshold), run), log, n, id);
    GivenAreHandOuts(log, n, id);
    var jobs := After(EMPTY, log, n).jobs;
    forall k | 0 <= k < |jobs| && jobs[k].id == id
      ensures Given(log, n, id) == jobs[k].attemptCount <= Budget(jobs[k])
    {
      Finality.AttemptAccounting(threshold, run, k);
    }
  }

  /** The job is finished after the first `n` calls, and no hand-out of it is left to be answered. */
  ghost predicate SettledAt(log: seq<Entry>, n: nat, k: nat)
    requires n <= |log|
  {
    var jobs := After(EMPTY, log, n).jobs;
    && k < |jobs| && jobs[k].status.IsTerminal()
    && (jobs[k].status == Canceled ==> Given(log, n, jobs[k].id) == Answered(log, n, jobs[k].id))
  }

  /**
   * Finality, said of the interleaved store: a job that was SUCCESS or FAILED at some point of the log, or CANCELED
   * with every hand-out of it answered (as when it was canceled while PENDING), keeps its whole record.
   */
  lemma FinishedInEveryInterleaving(threshold: Time, trace: Trace, n: nat, k: nat)
    requires trace.From(EMPTY) && Traffic(threshold, trace.Last().log)
    requires n <= |trace.Last().log| && SettledAt(trace.Last().log, n, k)
    ensures var log := trace.Last().log;
      var jobs := After(EMPTY, log, |log|).jobs;
      k < |jobs| && jobs[k] == After(EMPTY, log, n).jobs[k]
  {
    var log := trace.Last().log;
    EveryInterleavingIsSequential(EMPTY, trace);
    var run, rest := TwoRuns(threshold, log, n);
    var s := Exec(Init(threshold), run);
    assert Balances(s, log, n, s.queue.jobs[k].id);
    if InFlight(s, k) {
      Finality.InFlightMeans(s, k);
    }
    Finality.SettledIsFinal(s, rest, k);
  }

  /** The log from `n` on is a run from the state after the first `n` calls. */
  lemma TwoRuns(threshold: Time, log: seq<Entry>, n: nat) returns (run: seq<Step>, rest: seq<Step>)
    requires Lawful(threshold, log) && n <= |log|
    ensures var s := Exec(Init(threshold), run);
      && Reachable(s) && Mirrors(s, threshold, log, n)
      && Exec(s, rest).queue == After(EMPTY, log, |log|)
  {
    run := PrefixIsARun(threshold, log, n);
    LawfulFits(threshold, log);
    var longer := RunGoesOn(threshold, log, n, |log|, run);
    rest := longer[|run|..];
    assert run + rest == longer;
    ExecConcat(Init(threshold), run, rest);
  }

  /** The logs agree on their first `n` calls. */
  predicate Agree(log: seq<Entry>, longer: seq<Entry>, n: nat) {
    n <= |log| && n <= |longer| && forall i | 0 <= i < n :: longer[i] == log[i]
  }

  lemma {:induction false} AgreeingLogs(log: seq<Entry>, longer: seq<Entry>, n: nat, id: string)
    requires Agree(log, longer, n)
    ensures After(EMPTY, longer, n) == After(EMPTY, log, n)
    ensures Given(longer, n, id) == Given(log, n, id) && Answered(longer, n, id) == Answered(log, n, id)
  {
    if n > 0 {
      AgreeingLogs(log, longer, n - 1, id);
    }
  }

  /** The log goes on from the first `n` calls of `log`, by well-behaved clients, and ends with job `k` alive. */
  ghost predicate ComesBack(threshold: Time, log: seq<Entry>, n: nat, longer: seq<Entry>, k: nat) {
    && Agree(log, longer, n) && Lawful(threshold, longer)
    && var jobs := After(EMPTY, longer, |longer|).jobs; k < |jobs| && !jobs[k].status.IsTerminal()
  }

  /** Canceled with a hand-out still to be answered and attempts left. */
  ghost predicate LateResultDue(log: seq<Entry>, n: nat, k: nat)
    requires n <= |log| && k < |After(EMPTY, log, n).jobs|
  {
    var job := After(EMPTY, log, n).jobs[k];
    && job.status == Canceled && Answered(log, n, job.id) < Given(log, n, job.id)
    && job.attemptCount < job.maxRetries
  }

  /** If the job comes back, its late result was due. */
  lemma OnlyTheLateResultRevives(threshold: Time, log: seq<Entry>, n: nat, longer: seq<Entry>, k: nat)
    requires n <= |log| && k < |After(EMPTY, log, n).jobs| && After(EMPTY, log, n).jobs[k].status.IsTerminal()
    requires ComesBack(threshold, log, n, longer, k)
    ensures LateResultDue(log, n, k)
  {
    var id := After(EMPTY, log, n).jobs[k].id;
    AgreeingLogs(log, longer, n, id);
    var run, rest := TwoRuns(threshold, longer, n);
    var s := Exec(Init(threshold), run);
    assert Balances(s, longer, n, id);
    assert k < |Exec(s, rest).queue.jobs| && !Exec(s, rest).queue.jobs[k].status.IsTerminal();
    Finality.TerminalIsFinalUnlessRevivable(s, k);
  }

  /** The call that hands in the late result. */
  function LateResult(id: string): Entry {
    Entry(0, OpComplete(id, Answer(Failed, [], None, ""), 0), Done, 0)
  }

  lemma LateResultRequeues(q: Queue, k: nat)
    requires WellFormed(q) && k < |q.jobs| && q.jobs[k].attemptCount < q.jobs[k].maxRetries
    ensures var r := Apply(q, LateResult(q.jobs[k].id).op);
      r.1 == Done && k < |r.0.jobs| && r.0.jobs[k].status == JobStatus.Pending
  {
    FindAt(q.jobs, k);
    EachJobAfter(q, LateResult(q.jobs[k].id).op);
  }

  lemma LateResultFits(threshold: Time, log: seq<Entry>, n: nat, longer: seq<Entry>, k: nat)
    requires n <= |log| && k < |After(EMPTY, log, n).jobs| && LateResultDue(log, n, k)
    requires Agree(log, longer, n) && n < |longer| && longer[n] == LateResult(After(EMPTY, log, n).jobs[k].id)
    ensures Fits(threshold, longer, n)
  {
    var q := After(EMPTY, log, n);
    AgreeingLogs(log, longer, n, q.jobs[k].id);
    LateResultRequeues(q, k);
  }

  lemma FitsAreLawful(threshold: Time, log: seq<Entry>)
    requires forall p | 0 <= p < |log| :: Fits(threshold, log, p)
    ensures Lawful(threshold, log)
  {
    forall p | 0 <= p < |log|
      ensures Proper(threshold, log, p) && InPlace(EMPTY, log, p)
    {
      assert Fits(threshold, log, p);
    }
  }

  /** A call keeps its place in every log that agrees so far. */
  lemma KeepsPlace(threshold: Time, log: seq<Entry>, longer: seq<Entry>, n: nat, p: nat)
    requires Agree(log, longer, n) && p < n && Fits(threshold, log, p)
    ensures Fits(threshold, longer, p)
  {
    AgreeingLogs(log, longer, p, if log[p].op.OpComplete? then log[p].op.jobId else "");
  }

  lemma AllKeepPlace(threshold: Time, log: seq<Entry>, longer: seq<Entry>, n: nat)
    requires Agree(log, longer, n) && forall p | 0 <= p < |log| :: Fits(threshold, log, p)
    ensures forall p | 0 <= p < n :: Fits(threshold, longer, p)
  {
    forall p | 0 <= p < n
      ensures Fits(threshold, longer, p)
    {
      assert Fits(threshold, log, p);
      KeepsPlace(threshold, log, longer, n, p);
    }
  }

  lemma LateResultIsLawful(threshold: Time, log: seq<Entry>, n: nat, longer: seq<Entry>, k: nat)
    requires n <= |log| && forall p | 0 <= p < |log| :: Fits(threshold, log, p)
    requires k < |After(EMPTY, log, n).jobs| && LateResultDue(log, n, k)
    requires Agree(log, longer, n) && |longer| == n + 1 && longer[n] == LateResult(After(EMPTY, log, n).jobs[k].id)
    ensures Lawful(threshold, longer)
  {
    AllKeepPlace(threshold, log, longer, n);
    LateResultFits(threshold, log, n, longer, k);
    FitsAreLawful(threshold, longer);
  }

  lemma LateResultRevives(threshold: Time, log: seq<Entry>, n: nat, k: nat) returns (longer: seq<Entry>)
    requires Lawful(threshold, log) && n <= |log|
    requires k < |After(EMPTY, log, n).jobs| && LateResultDue(log, n, k)
    ensures ComesBack(threshold, log, n, longer, k)
  {
    longer := log[..n] + [LateResult(After(EMPTY, log, n).jobs[k].id)];
    LawfulFits(threshold, log);
    LateResultIsLawful(threshold, log, n, longer, k);
    AgreeingLogs(log, longer, n, "");
    LateResultRequeues(After(EMPTY, log, n), k);
  }

  /**
   * A job that is terminal at some point of an interleaving can come back in some continuation exactly if it is
   * CANCELED, a hand-out of it is not answered yet, and attempts are left.
   */
  lemma TerminalInEveryInterleaving(threshold: Time, trace: Trace, n: nat, k: nat)
    requires trace.From(EMPTY) && Traffic(threshold, trace.Last().log) && n <= |trace.Last().log|
    requires var jobs := After(EMPTY, trace.Last().log, n).jobs; k < |jobs| && jobs[k].status.IsTerminal()
    ensures var log := trace.Last().log;
      (exists longer :: ComesBack(threshold, log, n, longer, k)) <==> LateResultDue(log, n, k)
  {
    var log := trace.Last().log;
    EveryInterleavingIsSequential(EMPTY, trace);
    if LateResultDue(log, n, k) {
      var longer := LateResultRevives(threshold, log, n, k);
    }
    forall longer | ComesBack(threshold, log, n, longer, k)
      ensures LateResultDue(log, n, k)
    {
      OnlyTheLateResultRevives(threshold, log, n, longer, k);
    }
  }
}
