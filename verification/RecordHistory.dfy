/** Every field of a stored job, in every run, from the events that concerned the job. */
module RecordHistory {
  import opened Wrappers
  import opened Model
  import opened JobQueue
  import opened Requests
  import opened Protocol
  import opened Finality

  /** An event of a run that concerned one job, with its clock reading. */
  datatype Deed =
    | Submitted(id: string, request: CreateJobRequest, now: Time)
    | HandedOut(agentId: string, now: Time)
    | Answered(answer: Answer, now: Time)
    | Revoked(now: Time)

  ghost function DeedOf(s: Sys, step: Step, k: nat): seq<Deed>
    requires WellFormed(s.queue)
  {
    if k >= |s.queue.jobs| then
      if k < |Next(s, step).queue.jobs| && step.event.Submit?
      then [Submitted(step.event.id, step.event.request, step.now)] else []
    else if GivesOut(s, step, k) then [HandedOut(step.event.pollerId, step.now)]
    else if Reports(s, step, k) then [Answered(step.event.answer, step.now)]
    else if Cancels(s, step, k) then [Revoked(step.now)]
    else []
  }

  /** The events of the run that concerned job `k`, in order. */
  ghost function Deeds(s: Sys, run: seq<Step>, k: nat): seq<Deed>
    requires WellFormed(s.queue)
  {
    if run == [] then []
    else
      var n := |run| - 1;
      Deeds(s, run[..n], k) + DeedOf(Exec(s, run[..n]), run[n], k)
  }

  // ---- What a history says ----

  function HandOutsIn(h: seq<Deed>): nat {
    if h == [] then 0 else HandOutsIn(h[..|h| - 1]) + if h[|h| - 1].HandedOut? then 1 else 0
  }

  /** The last event was a FAILED result with attempts left. */
  predicate Requeues(h: seq<Deed>, maxRetries: int) {
    h != [] &&
    var last := h[|h| - 1];
    last.Answered? && last.answer.status == Failed && HandOutsIn(h) < maxRetries
  }

  /** The last hand-out, unless the job was requeued since. */
  function InForce(h: seq<Deed>, maxRetries: int): Option<Deed> {
    if h == [] || Requeues(h, maxRetries) then None
    else if h[|h| - 1].HandedOut? then Some(h[|h| - 1])
    else InForce(h[..|h| - 1], maxRetries)
  }

  /** When the job last became terminal. */
  function FinishOf(h: seq<Deed>, maxRetries: int): Option<Time> {
    if h == [] then None
    else
      var last := h[|h| - 1];
      if last.Revoked? || (last.Answered? && !Requeues(h, maxRetries)) then Some(last.now)
      else FinishOf(h[..|h| - 1], maxRetries)
  }

  function StatusOf(h: seq<Deed>, maxRetries: int): JobStatus
    requires h != []
  {
    match h[|h| - 1]
    case Submitted(_, _, _) => Pending
    case HandedOut(_, _) => Running
    case Answered(answer, _) => if Requeues(h, maxRetries) then Pending else answer.status
    case Revoked(_) => Canceled
  }

  function LogsIn(h: seq<Deed>): seq<string> {
    if h == [] then []
    else
      var last := h[|h| - 1];
      LogsIn(h[..|h| - 1]) + if last.Answered? then last.answer.logs else []
  }

  function LastAnswer(h: seq<Deed>): Option<Answer> {
    if h == [] then None
    else if h[|h| - 1].Answered? then Some(h[|h| - 1].answer)
    else LastAnswer(h[..|h| - 1])
  }

  /** The fields that the request fixes. */
  predicate ShowsRequest(job: Job, id: string, r: CreateJobRequest, now: Time) {
    && job.id == id && job.name == r.name && job.jobType == r.jobType && job.payload == r.payload
    && job.createdAt == now && job.maxRetries == r.maxRetries
    && job.timeoutSeconds == (if r.timeoutSeconds == 0 then 30 else r.timeoutSeconds)
  }

  /** The fields that the later events decide. */
  predicate ShowsProgress(job: Job, h: seq<Deed>)
    requires h != []
  {
    var m := job.maxRetries;
    && job.status == StatusOf(h, m) && job.attemptCount == HandOutsIn(h)
    && (match InForce(h, m)
        case None => job.assignedAgentId == "" && job.startedAt == None
        case Some(given) =>
          given.HandedOut? && job.assignedAgentId == given.agentId && job.startedAt == Some(given.now))
    && job.finishedAt == FinishOf(h, m)
    && job.logs == LogsIn(h)
    && (match LastAnswer(h)
        case None => job.result == None && job.error == ""
        case Some(answer) => job.result == answer.result && job.error == answer.error)
  }

  ghost predicate Shows(job: Job, h: seq<Deed>) {
    && h != [] && h[0].Submitted? && ShowsRequest(job, h[0].id, h[0].request, h[0].now)
    && ShowsProgress(job, h)
  }

  // ---- Every step keeps it ----

  lemma ShowsStep(s: Sys, step: Step, k: nat, h: seq<Deed>)
    requires Inv(s) && k < |s.queue.jobs| && Shows(s.queue.jobs[k], h)
    ensures k < |Next(s, step).queue.jobs| && Shows(Next(s, step).queue.jobs[k], h + DeedOf(s, step, k))
  {
    StepOfJob(s, step, k);
    var deed := DeedOf(s, step, k);
    if deed == [] {
      assert h + deed == h;
    } else {
      assert (h + deed)[..|h|] == h;
    }
  }

  lemma FirstDeed(s: Sys, step: Step, k: nat)
    requires Inv(s) && |s.queue.jobs| <= k < |Next(s, step).queue.jobs|
    ensures Shows(Next(s, step).queue.jobs[k], DeedOf(s, step, k))
  {
    NewJobOfStep(s, step, k);
    var h := DeedOf(s, step, k);
    assert h[..0] == [];
  }

  lemma {:induction false} NoDeedsYet(s: Sys, run: seq<Step>, k: nat)
    requires WellFormed(s.queue) && k >= |Exec(s, run).queue.jobs|
    ensures Deeds(s, run, k) == []
  {
    if run != [] {
      var n := |run| - 1;
      RunKeepsJobs(Exec(s, run[..n]), [run[n]]);
      ExecOne(Exec(s, run[..n]), run[n]);
      NoDeedsYet(s, run[..n], k);
    }
  }

  /**
   * In every run each field of every job is what the events that concerned the job say: the request fixes its own
   * fields and the creation its time; the last event decides the status; assignee and StartedAt are those of the last
   * hand-out unless a FAILED result requeued the job since; FinishedAt is the reading of the last cancel or finishing
   * result; AttemptCount counts the hand-outs; logs, result and error are those of the results.
   */
  lemma {:induction false} RecordFollowsItsEvents(threshold: Time, run: seq<Step>, k: nat)
    requires k < |Exec(Init(threshold), run).queue.jobs|
    ensures Shows(Exec(Init(threshold), run).queue.jobs[k], Deeds(Init(threshold), run, k))
  {
    if run != [] {
      var s0, n := Init(threshold), |run| - 1;
      var before := Exec(s0, run[..n]);
      InvExec(s0, run[..n]);
      if k < |before.queue.jobs| {
        RecordFollowsItsEvents(threshold, run[..n], k);
        ShowsStep(before, run[n], k, Deeds(s0, run[..n], k));
      } else {
        NoDeedsYet(s0, run[..n], k);
        FirstDeed(before, run[n], k);
      }
    }
  }

  // ---- Canceled ----

  /** A cancel after which no result was recorded. */
  predicate RevokedSince(h: seq<Deed>, i: nat) {
    i < |h| && h[i].Revoked? && forall j | i < j < |h| :: !h[j].Answered?
  }

  lemma RevokedSnoc(h: seq<Deed>, deed: Deed)
    ensures (exists i: nat :: RevokedSince(h + [deed], i)) <==>
      deed.Revoked? || (!deed.Answered? && exists i: nat :: RevokedSince(h, i))
  {
    var h' := h + [deed];
    if deed.Revoked? {
      assert RevokedSince(h', |h|);
    } else if i: nat :| RevokedSince(h', i) {
      assert h'[|h|] == deed;
      assert forall j | i < j < |h| :: h'[j] == h[j];
      assert RevokedSince(h, i);
    }
    if i: nat :| !deed.Answered? && RevokedSince(h, i) {
      assert RevokedSince(h', i);
    }
  }

  /** CANCELED exactly after a cancel with no result recorded since. */
  ghost predicate ShowsCancel(job: Job, h: seq<Deed>) {
    job.status == Canceled <==> exists i: nat :: RevokedSince(h, i)
  }

  lemma CanceledStep(s: Sys, step: Step, k: nat, h: seq<Deed>)
    requires Inv(s) && k < |s.queue.jobs| && ShowsCancel(s.queue.jobs[k], h)
    ensures k < |Next(s, step).queue.jobs| && ShowsCancel(Next(s, step).queue.jobs[k], h + DeedOf(s, step, k))
  {
    StepOfJob(s, step, k);
    var deed := DeedOf(s, step, k);
    if deed == [] {
      assert h + deed == h;
    } else {
      RevokedSnoc(h, deed[0]);
      assert h + deed == h + [deed[0]];
    }
  }

  lemma FirstIsNoCancel(s: Sys, step: Step, k: nat)
    requires Inv(s) && |s.queue.jobs| <= k < |Next(s, step).queue.jobs|
    ensures ShowsCancel(Next(s, step).queue.jobs[k], [] + DeedOf(s, step, k))
  {
    NewJobOfStep(s, step, k);
  }

  /** In every run a job is CANCELED exactly if it was canceled and no result of it was recorded since. */
  lemma {:induction false} CanceledIff(threshold: Time, run: seq<Step>, k: nat)
    requires k < |Exec(Init(threshold), run).queue.jobs|
    ensures ShowsCancel(Exec(Init(threshold), run).queue.jobs[k], Deeds(Init(threshold), run, k))
  {
    if run != [] {
      var s0, n := Init(threshold), |run| - 1;
      var before := Exec(s0, run[..n]);
      InvExec(s0, run[..n]);
      if k < |before.queue.jobs| {
        CanceledIff(threshold, run[..n], k);
        CanceledStep(before, run[n], k, Deeds(s0, run[..n], k));
      } else {
        NoDeedsYet(s0, run[..n], k);
        FirstIsNoCancel(before, run[n], k);
      }
    }
  }
}
