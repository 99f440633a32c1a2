/** How well an agent's status follows its silence, by the clock readings of the events. */
module Freshness {
  import opened Model
  import opened JobQueue
  import opened Requests
  import opened Protocol
  import opened Finality

  // ---- The readings of a run ----

  /** The latest clock reading of the run, or that of its start. */
  ghost function Clock(s: Sys, start: Time, run: seq<Step>): Time
    requires WellFormed(s.queue)
  {
    if run == [] then start
    else
      var n := |run| - 1;
      var before := Clock(s, start, run[..n]);
      if Enabled(Exec(s, run[..n]), run[n]) && before < run[n].now then run[n].now else before
  }

  /** The reading of the run's last health check, or of its start. */
  ghost function LastCheck(s: Sys, start: Time, run: seq<Step>): Time
    requires WellFormed(s.queue)
  {
    if run == [] then start
    else
      var n := |run| - 1;
      if run[n].event.HealthCheck? then run[n].now else LastCheck(s, start, run[..n])
  }

  // ---- Offline ----

  /** Every sweep of the run reads at most `t`. */
  predicate SweepsUpTo(run: seq<Step>, t: Time) {
    run != [] ==>
      var n := |run| - 1;
      SweepsUpTo(run[..n], t) && (run[n].event.HealthCheck? ==> run[n].now <= t)
  }

  predicate MissedBy(agent: Agent, t: Time) {
    agent.status == Offline ==> agent.lastSeen < t
  }

  lemma MissedStep(s: Sys, step: Step, t: Time)
    requires WellFormed(s.queue) && (step.event.HealthCheck? ==> step.now <= t)
    requires forall id | id in s.queue.agents :: MissedBy(s.queue.agents[id], t - s.threshold)
    ensures forall id | id in Next(s, step).queue.agents :: MissedBy(Next(s, step).queue.agents[id], t - s.threshold)
  {
  }

  /** An offline agent was missed by a sweep. */
  lemma {:induction false} OfflineWasMissed(threshold: Time, run: seq<Step>, t: Time)
    requires SweepsUpTo(run, t)
    ensures var agents := Exec(Init(threshold), run).queue.agents;
      forall id | id in agents :: MissedBy(agents[id], t - threshold)
  {
    if run != [] {
      var n := |run| - 1;
      OfflineWasMissed(threshold, run[..n], t);
      ThresholdKept(Init(threshold), run[..n]);
      MissedStep(Exec(Init(threshold), run[..n]), run[n], t);
    }
  }

  lemma SweepStep(s: Sys, step: Step, id: string)
    requires WellFormed(s.queue) && step.event.HealthCheck? && id in s.queue.agents
    ensures id in Next(s, step).queue.agents
    ensures Next(s, step).queue.agents[id] == Swept(s.queue.agents[id], s.threshold, step.now)
  {
  }

  /**
   * Right after a sweep an online agent was seen within the threshold; and exactly these agents are online, if no
   * earlier sweep had a later reading.
   */
  lemma OnlineIffSeenAfterSweep(threshold: Time, run: seq<Step>, step: Step, id: string)
    requires step.event.HealthCheck? && id in Exec(Init(threshold), run).queue.agents
    ensures var s := Exec(Init(threshold), run);
      && id in Next(s, step).queue.agents
      && var agent := Next(s, step).queue.agents[id];
      && agent.lastSeen == s.queue.agents[id].lastSeen
      && (agent.status == Online ==> agent.lastSeen >= step.now - threshold)
      && (SweepsUpTo(run, step.now) ==> (agent.status == Online <==> agent.lastSeen >= step.now - threshold))
  {
    ThresholdKept(Init(threshold), run);
    SweepStep(Exec(Init(threshold), run), step, id);
    if SweepsUpTo(run, step.now) {
      OfflineWasMissed(threshold, run, step.now);
      assert MissedBy(Exec(Init(threshold), run).queue.agents[id], step.now - threshold);
    }
  }

  /** That condition is needed: for any two readings that go back there is a run in which the later sweep is wrong. */
  lemma SweepBehindAnEarlierOne(threshold: Time, early: Time, late: Time) returns (run: seq<Step>, id: string)
    requires late < early
    ensures var s := Next(Exec(Init(threshold), run), Step(late, HealthCheck));
      && run != [] && run[|run| - 1] == Step(early, HealthCheck)
      && id in s.queue.agents && s.queue.agents[id].status == Offline && s.queue.agents[id].lastSeen >= late - threshold
  {
    var registration := RegisterAgentRequest("agent", "", "", "", "", ["wait"]);
    assert !IsSpace("agent"[0]) && AcceptsRegister(registration);
    var join, sweep := Step(early - threshold - 1, Join(registration)), Step(early, HealthCheck);
    run, id := [join, sweep], "agent";
    TwoSteps(Init(threshold), join, sweep);
    SweepStep(Next(Init(threshold), join), sweep, id);
    SweepStep(Exec(Init(threshold), run), Step(late, HealthCheck), id);
  }

  // ---- Online ----

  ghost predicate AllSeenBy(s: Sys, t: Time) {
    forall id | id in s.queue.agents :: s.queue.agents[id].lastSeen <= t
  }

  lemma SeenStep(s: Sys, step: Step, t: Time, t': Time)
    requires WellFormed(s.queue) && AllSeenBy(s, t) && t <= t' && (Enabled(s, step) ==> step.now <= t')
    ensures AllSeenBy(Next(s, step), t')
  {
  }

  lemma {:induction false} SweepsByTheClock(s: Sys, start: Time, run: seq<Step>)
    requires WellFormed(s.queue)
    ensures SweepsUpTo(run, Clock(s, start, run))
  {
    if run != [] {
      var n := |run| - 1;
      SweepsByTheClock(s, start, run[..n]);
      SweepsUpToLater(run[..n], Clock(s, start, run[..n]), Clock(s, start, run));
    }
  }

  lemma {:induction false} SweepsUpToLater(run: seq<Step>, t: Time, t': Time)
    requires SweepsUpTo(run, t) && t <= t'
    ensures SweepsUpTo(run, t')
  {
    if run != [] {
      SweepsUpToLater(run[..|run| - 1], t, t');
    }
  }

  lemma {:induction false} SeenByTheClock(threshold: Time, start: Time, run: seq<Step>)
    ensures AllSeenBy(Exec(Init(threshold), run), Clock(Init(threshold), start, run))
  {
    if run != [] {
      var s0, n := Init(threshold), |run| - 1;
      SeenByTheClock(threshold, start, run[..n]);
      SeenStep(Exec(s0, run[..n]), run[n], Clock(s0, start, run[..n]), Clock(s0, start, run));
    }
  }

  /** The reading of a registration or heartbeat is behind the last health check by more than the threshold. */
  ghost predicate Late(s: Sys, step: Step, lastCheck: Time) {
    && Enabled(s, step) && step.now < lastCheck - s.threshold
    && (step.event.Join? || (step.event.Beats? && step.event.agentId in s.queue.agents))
  }

  /** Online agents were seen within the threshold before the last health check, or since. */
  ghost predicate OnlineSince(s: Sys, lastCheck: Time) {
    forall id | id in s.queue.agents && s.queue.agents[id].status == Online ::
      s.queue.agents[id].lastSeen >= lastCheck - s.threshold
  }

  lemma OnlineStep(s: Sys, step: Step, lastCheck: Time)
    requires WellFormed(s.queue) && OnlineSince(s, lastCheck)
    ensures OnlineSince(Next(s, step), if step.event.HealthCheck? then step.now else lastCheck)
      <==> !Late(s, step, lastCheck)
  {
    if Late(s, step, lastCheck) {
      LateStep(s, step, lastCheck);
    } else {
      PromptStep(s, step, lastCheck);
    }
  }

  lemma LateStep(s: Sys, step: Step, lastCheck: Time)
    requires WellFormed(s.queue) && Late(s, step, lastCheck)
    ensures !OnlineSince(Next(s, step), lastCheck)
  {
    var s' := Next(s, step);
    var id := if step.event.Join? then step.event.registration.id else step.event.agentId;
    assert id in s'.queue.agents && s'.queue.agents[id].status == Online && s'.queue.agents[id].lastSeen == step.now;
  }

  lemma PromptStep(s: Sys, step: Step, lastCheck: Time)
    requires WellFormed(s.queue) && OnlineSince(s, lastCheck) && !Late(s, step, lastCheck)
    ensures OnlineSince(Next(s, step), if step.event.HealthCheck? then step.now else lastCheck)
  {
    if step.event.HealthCheck? {
      forall id | id in s.queue.agents
        ensures id in Next(s, step).queue.agents
        ensures Next(s, step).queue.agents[id] == Swept(s.queue.agents[id], s.threshold, step.now)
      {
        SweepStep(s, step, id);
      }
    }
  }

  /** At every moment of the run an online agent is silent for at most threshold plus the time since the last check. */
  ghost predicate BoundedThroughout(s: Sys, start: Time, run: seq<Step>)
    requires WellFormed(s.queue)
  {
    && OnlineSince(Exec(s, run), LastCheck(s, start, run))
    && (run != [] ==> BoundedThroughout(s, start, run[..|run| - 1]))
  }

  /** No registration or heartbeat of the run is late. */
  ghost predicate PromptThroughout(s: Sys, start: Time, run: seq<Step>)
    requires WellFormed(s.queue)
  {
    run != [] ==>
      var n := |run| - 1;
      PromptThroughout(s, start, run[..n]) && !Late(Exec(s, run[..n]), run[n], LastCheck(s, start, run[..n]))
  }

  /** The bound on the silence of online agents holds throughout a run exactly if nothing in it is late. */
  lemma {:induction false} OnlineBoundIff(threshold: Time, start: Time, run: seq<Step>)
    ensures BoundedThroughout(Init(threshold), start, run) <==> PromptThroughout(Init(threshold), start, run)
  {
    if run != [] {
      var s0, n := Init(threshold), |run| - 1;
      OnlineBoundIff(threshold, start, run[..n]);
      if BoundedThroughout(s0, start, run[..n]) {
        OnlineStep(Exec(s0, run[..n]), run[n], LastCheck(s0, start, run[..n]));
      }
    }
  }

  /**
   * At the end of any run, whatever its readings, an offline agent has been silent for longer than the threshold.
   * If no registration or heartbeat was late, an online one has been silent for at most the threshold plus the time
   * since the last health check, or since the start if there was none.
   */
  lemma StatusBoundsSilence(threshold: Time, start: Time, run: seq<Step>, id: string)
    requires id in Exec(Init(threshold), run).queue.agents
    ensures var s0, agent := Init(threshold), Exec(Init(threshold), run).queue.agents[id];
      var silence := Clock(s0, start, run) - agent.lastSeen;
      && 0 <= silence
      && (agent.status == Offline ==> silence > threshold)
      && (agent.status == Online && PromptThroughout(s0, start, run) ==>
            silence <= threshold + (Clock(s0, start, run) - LastCheck(s0, start, run)))
  {
    SeenByTheClock(threshold, start, run);
    SweepsByTheClock(Init(threshold), start, run);
    OfflineWasMissed(threshold, run, Clock(Init(threshold), start, run));
    OnlineBoundIff(threshold, start, run);
    ThresholdKept(Init(threshold), run);
  }

  /** No stretch of the run longer than the interval lacks a health check; the start counts as one. */
  ghost predicate ChecksOnTime(s: Sys, start: Time, run: seq<Step>, interval: Time)
    requires WellFormed(s.queue)
  {
    && Clock(s, start, run) - LastCheck(s, start, run) <= interval
    && (run != [] ==> ChecksOnTime(s, start, run[..|run| - 1], interval))
  }

  /** With health checks on time, an online agent is silent for at most threshold + interval. */
  lemma OnlineMeansRecentlySeen(threshold: Time, start: Time, run: seq<Step>, interval: Time, id: string)
    requires ChecksOnTime(Init(threshold), start, run, interval) && PromptThroughout(Init(threshold), start, run)
    requires var agents := Exec(Init(threshold), run).queue.agents; id in agents && agents[id].status == Online
    ensures Clock(Init(threshold), start, run) - Exec(Init(threshold), run).queue.agents[id].lastSeen
      <= threshold + interval
  {
    StatusBoundsSilence(threshold, start, run, id);
  }

  /** With the shipped settings an online agent was heard from within 45 seconds. */
  lemma ShippedBound(start: Time, run: seq<Step>, id: string)
    requires var s0 := Init(30 * SECOND);
      ChecksOnTime(s0, start, run, 15 * SECOND) && PromptThroughout(s0, start, run)
    requires var agents := Exec(Init(30 * SECOND), run).queue.agents; id in agents && agents[id].status == Online
    ensures Clock(Init(30 * SECOND), start, run) - Exec(Init(30 * SECOND), run).queue.agents[id].lastSeen <= 45 * SECOND
  {
    OnlineMeansRecentlySeen(30 * SECOND, start, run, 15 * SECOND, id);
  }

  /** Each event reads at most the threshold behind the readings before it. */
  ghost predicate NearlyForward(s: Sys, start: Time, run: seq<Step>)
    requires WellFormed(s.queue)
  {
    run != [] ==>
      var n := |run| - 1;
      NearlyForward(s, start, run[..n]) && Clock(s, start, run[..n]) - s.threshold <= run[n].now
  }

  /** Then nothing is late; in particular not if the readings never go back. */
  lemma {:induction false} NearlyForwardIsPrompt(threshold: Time, start: Time, run: seq<Step>)
    requires NearlyForward(Init(threshold), start, run)
    ensures PromptThroughout(Init(threshold), start, run)
    ensures LastCheck(Init(threshold), start, run) <= Clock(Init(threshold), start, run)
  {
    if run != [] {
      var n := |run| - 1;
      NearlyForwardIsPrompt(threshold, start, run[..n]);
      ThresholdKept(Init(threshold), run[..n]);
    }
  }
}
