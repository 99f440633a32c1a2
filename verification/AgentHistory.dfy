/** Every field of a registered agent, in every run, from the events that concerned the agent. */
module AgentHistory {
  import opened Wrappers
  import opened Model
  import opened JobQueue
  import opened Requests
  import opened Protocol

  /** The last accepted registration under the ID. */
  function Registration(run: seq<Step>, id: string): Option<RegisterAgentRequest> {
    if run == [] then None
    else
      var event := run[|run| - 1].event;
      if event.Join? && AcceptsRegister(event.registration) && event.registration.id == id then Some(event.registration)
      else Registration(run[..|run| - 1], id)
  }

  /** Step `n` of the run registers the agent, or is a heartbeat of it once it is registered. */
  predicate SeenAt(run: seq<Step>, n: nat, id: string) {
    n < |run| &&
    var event := run[n].event;
    || (event.Join? && AcceptsRegister(event.registration) && event.registration.id == id)
    || (event.Beats? && event.agentId == id && Registration(run[..n], id).Some?)
  }

  /** The clock reading of the last of these steps. */
  function LastSeen(run: seq<Step>, id: string): Option<Time> {
    if run == [] then None
    else if SeenAt(run, |run| - 1, id) then Some(run[|run| - 1].now)
    else LastSeen(run[..|run| - 1], id)
  }

  /** Some health check since then read more than the threshold later. */
  predicate Missed(threshold: Time, run: seq<Step>, id: string) {
    run != [] &&
    var n := |run| - 1;
    !SeenAt(run, n, id) &&
    (Missed(threshold, run[..n], id)
     || (run[n].event.HealthCheck? && LastSeen(run[..n], id).Some?
         && LastSeen(run[..n], id).value < run[n].now - threshold))
  }

  ghost predicate ShowsAgent(threshold: Time, run: seq<Step>, id: string, agents: map<string, Agent>) {
    var r, seen := Registration(run, id), LastSeen(run, id);
    && (id in agents <==> r.Some?) && (id in agents <==> seen.Some?)
    && (id in agents ==>
          && agents[id].id == id && agents[id].hostname == r.value.hostname && agents[id].os == r.value.os
          && agents[id].arch == r.value.arch && agents[id].version == r.value.version
          && agents[id].capabilities == r.value.capabilities
          && agents[id].lastSeen == seen.value
          && agents[id].status == if Missed(threshold, run, id) then Offline else Online)
  }

  /** What one step does to the entry of one agent. */
  lemma EntryStep(s: Sys, step: Step, id: string)
    requires WellFormed(s.queue)
    ensures var agents, agents', event := s.queue.agents, Next(s, step).queue.agents, step.event;
      if event.Join? && AcceptsRegister(event.registration) && event.registration.id == id then
        id in agents' && agents'[id] == NewAgent(event.registration, step.now)
      else
        && (id in agents' <==> id in agents)
        && (id in agents ==>
              agents'[id] ==
              if event.Beats? && event.agentId == id then agents[id].(lastSeen := step.now, status := Online)
              else if event.HealthCheck? then Swept(agents[id], s.threshold, step.now)
              else agents[id])
  {
  }

  lemma AgentStep(threshold: Time, s: Sys, run: seq<Step>, id: string)
    requires WellFormed(s.queue) && s.threshold == threshold && run != []
    requires ShowsAgent(threshold, run[..|run| - 1], id, s.queue.agents)
    ensures ShowsAgent(threshold, run, id, Next(s, run[|run| - 1]).queue.agents)
  {
    EntryStep(s, run[|run| - 1], id);
    EntryShows(threshold, run, id, s.queue.agents, Next(s, run[|run| - 1]).queue.agents);
  }

  lemma EntryShows(threshold: Time, run: seq<Step>, id: string, agents: map<string, Agent>, agents': map<string, Agent>)
    requires run != [] && ShowsAgent(threshold, run[..|run| - 1], id, agents)
    requires var event, now := run[|run| - 1].event, run[|run| - 1].now;
      if event.Join? && AcceptsRegister(event.registration) && event.registration.id == id then
        id in agents' && agents'[id] == NewAgent(event.registration, now)
      else
        && (id in agents' <==> id in agents)
        && (id in agents ==>
              agents'[id] ==
              if event.Beats? && event.agentId == id then agents[id].(lastSeen := now, status := Online)
              else if event.HealthCheck? then Swept(agents[id], threshold, now)
              else agents[id])
    ensures ShowsAgent(threshold, run, id, agents')
  {
  }

  /**
   * In every run each field of every agent is what the events that concerned the agent say: the last registration
   * fixes the descriptive fields, LastSeen is the reading of the last registration or heartbeat, and the agent is
   * offline exactly if a health check since then missed it.
   */
  lemma {:induction false} AgentFollowsItsEvents(threshold: Time, run: seq<Step>, id: string)
    ensures ShowsAgent(threshold, run, id, Exec(Init(threshold), run).queue.agents)
  {
    if run != [] {
      var n := |run| - 1;
      AgentFollowsItsEvents(threshold, run[..n], id);
      ThresholdKept(Init(threshold), run[..n]);
      AgentStep(threshold, Exec(Init(threshold), run[..n]), run, id);
    }
  }

  /** Step `m` is the last one that shows the agent alive. */
  predicate SeenLastAt(run: seq<Step>, m: nat, id: string) {
    SeenAt(run, m, id) && forall n | m < n < |run| :: !SeenAt(run, n, id)
  }

  /** Every health check after step `m` reads at most the threshold later. */
  predicate InTimeFor(threshold: Time, run: seq<Step>, m: nat) {
    forall n | m < n < |run| && run[n].event.HealthCheck? :: m < |run| && run[n].now - threshold <= run[m].now
  }

  lemma {:induction false} MissedIff(threshold: Time, run: seq<Step>, m: nat, id: string)
    requires SeenLastAt(run, m, id)
    ensures LastSeen(run, id) == Some(run[m].now)
    ensures Missed(threshold, run, id) <==> !InTimeFor(threshold, run, m)
  {
    var n := |run| - 1;
    if m < n {
      var before := run[..n];
      forall i | 0 <= i < n
        ensures SeenAt(before, i, id) <==> SeenAt(run, i, id)
      {
        assert before[i] == run[i] && before[..i] == run[..i];
      }
      MissedIff(threshold, before, m, id);
      assert !SeenAt(run, n, id);
      assert InTimeFor(threshold, run, m) <==>
        InTimeFor(threshold, before, m) && (run[n].event.HealthCheck? ==> run[n].now - threshold <= run[m].now);
    }
  }

  /**
   * An agent is online exactly if its last registration or heartbeat is at most the threshold behind each health check
   * since, whatever the other readings.
   */
  lemma OnlineIffInTime(threshold: Time, run: seq<Step>, m: nat, id: string)
    requires SeenLastAt(run, m, id)
    ensures var agents := Exec(Init(threshold), run).queue.agents;
      && id in agents && agents[id].lastSeen == run[m].now
      && (agents[id].status == Online <==> InTimeFor(threshold, run, m))
  {
    AgentFollowsItsEvents(threshold, run, id);
    MissedIff(threshold, run, m, id);
  }
}
