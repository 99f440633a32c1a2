/** Every hand-out of a job is accounted for: its result was delivered, or it was lost, or it is in flight. */
module Ledger {
  import opened Model
  import opened JobQueue
  import opened Protocol
  import opened Finality
  import JobHistory

  /** The results delivered for the job by the run, in order. */
  ghost function Delivered(s: Sys, run: seq<Step>, id: string): seq<Answer>
    requires WellFormed(s.queue)
  {
    if run == [] then []
    else
      var n := |run| - 1;
      Delivered(s, run[..n], id) + if DeliversTo(Exec(s, run[..n]), run[n], id) then [run[n].event.answer] else []
  }

  /** How many attempts of the job the run lost. */
  ghost function Losses(s: Sys, run: seq<Step>, id: string): nat
    requires WellFormed(s.queue)
  {
    if run == [] then 0
    else
      var n := |run| - 1;
      Losses(s, run[..n], id) + if LosesFor(Exec(s, run[..n]), run[n], id) then 1 else 0
  }

  /** All answers but the last of a SUCCESS job are FAILED; a SUCCESS or FAILED job has its status from the last one. */
  predicate AnswersFit(job: Job, answers: seq<Answer>) {
    && (forall i | 0 <= i < |answers| ::
          answers[i].status == Failed || (i == |answers| - 1 && answers[i].status == Success && job.status == Success))
    && (job.status == Success ==> answers != [] && answers[|answers| - 1].status == Success)
    && (job.status == Failed ==> answers != [])
  }

  /** The balance of one job. A lost attempt leaves its job RUNNING or CANCELED, with nothing in flight. */
  ghost predicate Balanced(s: Sys, k: nat, answers: seq<Answer>, losses: nat)
    requires k < |s.queue.jobs|
  {
    var job := s.queue.jobs[k];
    && AnswersFit(job, answers)
    && job.attemptCount == |answers| + losses + (if InFlight(s, k) then 1 else 0)
    && (losses > 0 ==> losses == 1 && !InFlight(s, k) && (job.status == Running || job.status == Canceled))
  }

  lemma BalanceStep(s: Sys, step: Step, k: nat, answers: seq<Answer>, losses: nat)
    requires Inv(s) && k < |s.queue.jobs| && Balanced(s, k, answers, losses)
    ensures k < |Next(s, step).queue.jobs|
    ensures Balanced(Next(s, step), k,
                     answers + (if Reports(s, step, k) then [step.event.answer] else []),
                     losses + (if Drops(s, step, k) then 1 else 0))
  {
    StepOfJob(s, step, k);
    StepOfAttempt(s, step, k);
    if InFlight(s, k) {
      InFlightMeans(s, k);
    }
    if Reports(s, step, k) || Drops(s, step, k) {
      ReportMeansInFlight(s, step, k);
    } else {
      assert answers + [] == answers;
    }
  }

  lemma {:induction false} NothingBeforeCreation(s: Sys, run: seq<Step>, id: string)
    requires Inv(s) && Find(Exec(s, run).queue.jobs, id) == |Exec(s, run).queue.jobs|
    ensures Delivered(s, run, id) == [] && Losses(s, run, id) == 0
  {
    if run != [] {
      var n := |run| - 1;
      var before := Exec(s, run[..n]);
      InvExec(s, run[..n]);
      var k := Find(before.queue.jobs, id);
      if k < |before.queue.jobs| {
        StepOfJob(before, run[n], k);
      }
      NothingBeforeCreation(s, run[..n], id);
      if Enabled(before, run[n]) && (run[n].event.Deliver? || run[n].event.Lose?) {
        assert AttemptOk(before, before.inflight[run[n].event.k]);
      }
    }
  }

  /** In every run from an empty store the balance of every job holds. */
  lemma {:induction false} EveryJobBalances(s: Sys, run: seq<Step>, k: nat)
    requires Inv(s) && s.queue.jobs == [] && k < |Exec(s, run).queue.jobs|
    ensures var id := Exec(s, run).queue.jobs[k].id;
      Balanced(Exec(s, run), k, Delivered(s, run, id), Losses(s, run, id))
  {
    if run != [] {
      var n := |run| - 1;
      var before := Exec(s, run[..n]);
      InvExec(s, run[..n]);
      if k < |before.queue.jobs| {
        var id := before.queue.jobs[k].id;
        EveryJobBalances(s, run[..n], k);
        BalanceStep(before, run[n], k, Delivered(s, run[..n], id), Losses(s, run[..n], id));
        StepOfJob(before, run[n], k);
      } else {
        NewJobOfStep(before, run[n], k);
        NothingBeforeCreation(s, run[..n], run[n].event.id);
        FreshHasNoAttempt(before, run[n], k);
      }
    }
  }

  lemma FreshHasNoAttempt(s: Sys, step: Step, k: nat)
    requires Inv(s) && |s.queue.jobs| <= k < |Next(s, step).queue.jobs|
    ensures !InFlight(Next(s, step), k)
  {
    NewJobOfStep(s, step, k);
    InvNext(s, step);
    if InFlight(Next(s, step), k) {
      InFlightMeans(Next(s, step), k);
    }
  }

  /** An event records an answer for the job exactly if it delivers one. */
  lemma RecordsIffDelivers(s: Sys, step: Step, id: string)
    requires Inv(s) && Enabled(s, step) && CallOf(s, step).Some?
    ensures JobHistory.Records(s.queue, CallOf(s, step).value, id) <==> DeliversTo(s, step, id)
    ensures DeliversTo(s, step, id) ==> CallOf(s, step).value.answer == step.event.answer
  {
    if step.event.Deliver? {
      assert AttemptOk(s, s.inflight[step.event.k]);
    }
  }

  lemma RecordedSnoc(q: Queue, ops: seq<Op>, op: Op, id: string)
    requires WellFormed(q)
    ensures JobHistory.Recorded(q, ops + [op], id) ==
      JobHistory.Recorded(q, ops, id) + if JobHistory.Records(Replay(q, ops), op, id) then [op.answer] else []
  {
    assert (ops + [op])[..|ops|] == ops;
  }

  /** The results delivered by the run are those its store calls recorded. */
  lemma {:induction false} DeliveredIsRecorded(s: Sys, run: seq<Step>, id: string)
    requires Inv(s)
    ensures Delivered(s, run, id) == JobHistory.Recorded(s.queue, Calls(s, run), id)
  {
    if run != [] {
      var n := |run| - 1;
      var before := Exec(s, run[..n]);
      DeliveredIsRecorded(s, run[..n], id);
      if Enabled(before, run[n]) && CallOf(before, run[n]).Some? {
        RunIsReplay(s, run[..n]);
        InvExec(s, run[..n]);
        RecordsIffDelivers(before, run[n], id);
        RecordedSnoc(s.queue, Calls(s, run[..n]), CallOf(before, run[n]).value, id);
      } else {
        assert Calls(s, run) == Calls(s, run[..n]);
      }
    }
  }

  /**
   * In every run the hand-outs of a job are the results recorded for it, plus the attempts lost (at most one), plus
   * the one in flight, if any. A FAILED job had exactly B results, all FAILED, and lost nothing; a SUCCESS job had a
   * last result SUCCESS and only FAILED ones before it.
   */
  lemma HandOutsBalance(threshold: Time, run: seq<Step>, k: nat)
    requires k < |Exec(Init(threshold), run).queue.jobs|
    ensures var s0, s := Init(threshold), Exec(Init(threshold), run);
      var job := s.queue.jobs[k];
      var calls := Calls(s0, run);
      var answers, losses := JobHistory.Recorded(s0.queue, calls, job.id), Losses(s0, run, job.id);
      && JobHistory.HandOuts(s0.queue, calls, job.id) == |answers| + losses + (if InFlight(s, k) then 1 else 0)
      && losses <= 1
      && (job.status == Failed ==>
            |answers| == Budget(job) && losses == 0 && forall i | 0 <= i < |answers| :: answers[i].status == Failed)
      && (job.status == Success ==>
            && answers != [] && answers[|answers| - 1].status == Success && losses == 0
            && forall i | 0 <= i < |answers| - 1 :: answers[i].status == Failed)
  {
    var s0, s := Init(threshold), Exec(Init(threshold), run);
    InvExec(s0, []);
    InvExec(s0, run);
    EveryJobBalances(s0, run, k);
    DeliveredIsRecorded(s0, run, s.queue.jobs[k].id);
    AttemptAccounting(threshold, run, k);
    if InFlight(s, k) {
      InFlightMeans(s, k);
    }
  }
}
