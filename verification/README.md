# TaskBridge job scheduling, verified

A Dafny 4.11 model of TaskBridge's job scheduler: the in-memory store, the HTTP handlers that drive it, the agent's
poll loop, and the protocol they form when several agents, cancellations and lost messages interleave.
`dafny verify dfyconfig.toml` checks the whole project.

## Structure

| file | what it models |
|---|---|
| `Model.dfy` | jobs, agents, statuses; `Budget` is B = max(1, MaxRetries) |
| `AgentOrder.dfy` | Go's string order and the listing of agents |
| `JobQueue.dfy` | the abstract store, a list of jobs and a map of agents; `Apply` is the sequential specification |
| `CallEffects.dfy` | what each store call promises, said of records, fields and replies, apart from `Apply` |
| `JobHistory.dfy` | what every sequence of store calls by any callers keeps |
| `MemoryStore.dfy` | the store as a class with its map, order and agents, refining `JobQueue` |
| `Requests.dfy`, `Validation.dfy`, `Timeouts.dfy` | request validation and the 64-bit timeout arithmetic |
| `Protocol.dfy` | the system as a state machine: store and attempts in flight; its invariant |
| `Finality.dfy`, `Ledger.dfy`, `Liveness.dfy`, `Draining.dfy` | properties of all runs of that machine, whatever the clocks read |
| `RecordHistory.dfy`, `AgentHistory.dfy` | every field of a job and of an agent, in every run, from the events that concerned it |
| `JobTimes.dfy`, `Freshness.dfy` | the properties that depend on the clock readings, each with its exact condition |
| `Interleaving.dfy`, `Linearizability.dfy`, `LockProgress.dfy`, `LockWaiting.dfy` | the store methods statement by statement, by threads that share the read-write lock |
| `Composition.dfy` | the interleaved threads under the protocol's clients are a run of the protocol |
| `Snapshots.dfy` | the log slices with their backing arrays |
| `Handlers.dfy`, `Worker.dfy` | the handlers and the agent's poll loop as methods over the class |

Three views of one store are tied together. The class methods are proved equal to the functions of `JobQueue`. The
interleaving model shows that concurrent threads get the replies of some order of these functions. The protocol makes
one such call per event, so `Protocol.RunIsReplay` carries everything proved of arbitrary callers over to it.
`Composition.EveryInterleavingIsARun` closes the circle: if the clients of the threads behave as the protocol says (a
result answers a job that a poll's reply gave out, requests were validated), the completed calls are a run of the
protocol, and exclusive execution and finality hold of the interleaved statements and of the replies the threads got.

The lock is `sync.RWMutex`: one writer at a time is announced, waits for the readers inside, and keeps new readers out
until it unlocks, which lets all blocked readers in.

The protocol's events are creations, registrations, heartbeats, polls, cancels and health checks by anyone at any time,
plus, for each attempt in flight, one report or one loss. A poll that is given a job puts one attempt in flight.
An event that is not enabled (a rejected request, a report of an attempt that is not in flight) changes nothing, so the
theorems quantify over all sequences of events. An answer the server rejects counts as lost.

Each event carries its own clock reading, and readings may come in any order: the create and register handlers read the
clock before they wait for the lock, and a wall clock can be set back. Only `JobTimes` and `Freshness` look at readings.

The time read by `time.Now`, generated job IDs, executor answers, spare capacity of grown slices and map iteration order
are parameters or arbitrary choices. `sort.Slice` is library code; in the class an insertion sort, written as a
function, stands for it, in the interleaving model any sorted arrangement may result.

## Where the code and its documentation differ

- A comment in `internal/store/memory_test.go:348` expects a retry at attempt 1 of 1. The code counts the attempt
  before the test, so a job is handed out at most max(1, MaxRetries) times (`Finality.AttemptAccounting`).
- The repository's `README.md:187-195` draws SUCCESS, FAILED and CANCELED as final. `CompleteJob` does not look at the
  status. For arbitrary callers some sequence of calls brings a terminal job back exactly while retries are left
  (`JobHistory.TerminalIsFinalIffRetriesUsedUp`); under the worker protocol, exactly if it was canceled with its attempt
  still out and retries left (`Finality.TerminalIsFinalUnlessRevivable`; `Finality.LateFailureRevives` is a
  concrete run), and the same of the interleaved store (`Composition.TerminalInEveryInterleaving`).
- Requeueing keeps `FinishedAt`; for a job that is not terminal it is set exactly if the job was canceled before
  (`Finality.FinishedAtOfALiveJob`).
- With other callers in between, handleCancelJob can answer 500 (`Handlers.RefusedCancelCanFailIff`).
- A RUNNING job whose attempt was lost is never handed out again: a RUNNING job can leave RUNNING without a cancel
  exactly while its attempt is in flight (`Finality.RunningIsLeftIffInFlight`; `Finality.LostAttemptAbandonsItsJob` is a
  concrete run).
- A job's times can be out of order, and an agent's status wrong, when clock readings go back;
  `JobTimes.TimesInOrderIff` and `Freshness.OnlineBoundIff` say exactly when (`JobTimes.TimesCanCross` and
  `Freshness.SweepBehindAnEarlierOne` are concrete runs). A creation that waits for the lock while later
  readings pass it does no harm to the order of times (`JobTimes.ClockKeepsOrder`).
- Polling often does not drain the store while attempts are out (`Draining.VainPollsDoNotDrain` is a concrete run);
  polls made while none is out do (`Draining.DrainBound`).
- Timeouts above 9223372036 s wrap around (`Timeouts.LongTimeoutCanBecomeShort`).

## Model

| member | source | states |
|---|---|---|
| AgentOrder.LessIsLexicographic | internal/store/memory.go:143-145 | IDs are ordered as Go orders strings: by the first character in which they differ, a prefix first |
| AgentOrder.ListingIsUnique | internal/store/memory.go:135-147 | any two answers that list every agent once in increasing ID order are the same list, for every map iteration order |
| AgentOrder.SortedCollectionLists | internal/store/memory.go:139-146 | any sorted arrangement of the collected agents is strictly increasing and complete, given agents[id].ID == id |
| JobQueue.EachJobAfter | internal/store/memory.go:37-231 | a store call adds at most one job, at the end, and changes at most one record, in one of three ways |
| JobQueue.AssignIsFifo | internal/store/memory.go:153-194 | the job given out is the first PENDING one with a type in the capabilities, none iff none exists; its status, assignee, StartedAt and AttemptCount are set and no other field or record changes; an unknown agent is an error |
| JobQueue.SweepMarksExactlyTheStale | internal/store/memory.go:239-253 | the count is the number of records changed, these are the online agents older than the cutoff, none remains |
| JobQueue.SweepIsIdempotent | internal/store/memory.go:239-253 | a second sweep with the same cutoff returns 0 and changes nothing |
| CallEffects.CallsKeepPromise | internal/store/memory.go:37-253 | each store call makes the promised reply and leaves the promised store, said of records and fields |
| CallEffects.PromiseIsUnique | internal/store/memory.go:37-253 | that promise leaves one reply and one store for every state and call |
| CallEffects.UpdateReplaces | internal/store/memory.go:74-83 | UpdateJob replaces exactly the record with the job's ID, or is an error |
| JobHistory.OrderOnlyGrows | internal/store/memory.go:41-47 | for any callers, jobs are never removed or reordered and keep what their creation fixed |
| JobHistory.HistoryFold | internal/store/memory.go:184-230 | in every call sequence AttemptCount counts the hand-outs, Logs concatenates all recorded logs in order, Result and Error are the last recorded ones |
| JobHistory.TerminalIsFinalIffRetriesUsedUp | internal/store/memory.go:198-231 | some sequence of validated calls makes a terminal job live again iff AttemptCount < MaxRetries; otherwise none ever does |
| JobHistory.JobsStayFindable | internal/store/memory.go:198-205 | a job once seen is found at the same position after any calls, and completing it succeeds |
| MemoryStore.RefinesIsABijection | internal/store/memory.go:14-21 | keys and order are a duplicate-free bijection, records carry their key, and they represent exactly one list |
| MemoryStore.WriteRefines | internal/store/memory.go:74-83 | storing a record under its key changes exactly one position of the list |
| MemoryStore.WalkAssigns | internal/store/memory.go:171-190 | the write at the first match of the walk is the abstract assignment |
| MemoryStore.MemoryStore.CreateJob | internal/store/memory.go:37-48 | appends the job, or refuses a known ID |
| MemoryStore.MemoryStore.ListJobs | internal/store/memory.go:51-62 | the loop returns the abstract list itself |
| MemoryStore.MemoryStore.GetJob | internal/store/memory.go:65-71 | the record of the list, if any |
| MemoryStore.MemoryStore.UpdateJob | internal/store/memory.go:74-83 | replaces the record in place, or refuses an unknown ID |
| MemoryStore.MemoryStore.CancelJob | internal/store/memory.go:86-103 | cancels a live job, refuses an absent or a terminal one |
| MemoryStore.MemoryStore.RegisterAgent | internal/store/memory.go:110-116 | stores the agent under its own ID |
| MemoryStore.MemoryStore.Heartbeat | internal/store/memory.go:119-132 | refreshes a known agent and brings it online |
| MemoryStore.MemoryStore.ListAgents | internal/store/memory.go:135-147 | collecting the map in any order and sorting gives the one listing by ID |
| MemoryStore.BuildCapSet | internal/store/memory.go:164-168 | the loop builds the set of the capabilities |
| MemoryStore.MemoryStore.AssignNextJob | internal/store/memory.go:155-194 | the walk over the order is the abstract assignment |
| MemoryStore.MemoryStore.CompleteJob | internal/store/memory.go:198-231 | records the answer, requeues a FAILED job with retries left, otherwise finishes it |
| MemoryStore.MemoryStore.MarkStaleAgentsOffline | internal/store/memory.go:239-253 | writing the map while ranging over it in any order gives the abstract sweep and its count |
| Validation.TrimSpace | internal/model/validation.go:38-40 | the trimmed text is empty iff the text is blank, and only white space was cut |
| Validation.ValidateCreate | internal/model/validation.go:35-85 | no error iff the request is well-formed for its type, otherwise exactly the offending fields and missing payload keys are reported |
| Validation.ErrorsMean | internal/model/validation.go:35-85 | each field is reported iff it is in error: blank name, unknown type, missing payload or payload key of the type, negative timeout or retries |
| Validation.ValidateRegister | internal/model/validation.go:92-107 | no error iff the ID is not blank and there is a capability, otherwise exactly the offending fields are reported |
| Validation.ValidateResult | internal/model/validation.go:114-126 | no error iff the status is SUCCESS or FAILED, otherwise that field is reported |
| Validation.OtherErrorsMean | internal/model/validation.go:92-126 | a registration's ID and capabilities and a result's status are reported iff blank, empty, or neither SUCCESS nor FAILED |
| Timeouts.Wrap64 | internal/agent/worker.go:146 | the result fits 64 bits, is congruent to the product modulo 2^64, and so exact when the product fits |
| Timeouts.TimeoutIsAsRequestedIff | internal/agent/worker.go:145-149 | for accepted requests the created job's timeout is positive, 30 s if omitted, and otherwise the requested seconds iff these are at most 9223372036 |
| Timeouts.LongTimeoutCanBecomeShort | internal/agent/worker.go:146 | concrete inputs for which the product wraps |
| Protocol.InvNext | internal/store/memory.go:86-253 | every event keeps the invariant of jobs and attempts, whatever its clock reading |
| Protocol.ReachableInv | internal/store/memory.go:86-253 | every reachable state satisfies it |
| Protocol.RunIsReplay | internal/api/assignment.go:32-94 | a run of the protocol is a sequence of store calls |
| Protocol.PollStartsOneAttempt | internal/agent/worker.go:113-121 | a poll puts in flight the current attempt of a job that had none |
| Finality.StepOfJob | internal/store/memory.go:86-231 | a record changes only by being given out, reported on or canceled, and how |
| Finality.StepOfAttempt | internal/agent/worker.go:112-176 | a job's attempt is in flight from its hand-out to its report or loss |
| Finality.ExclusiveExecution | internal/store/memory.go:171-230 | at most one attempt in flight per job, none for PENDING, SUCCESS and FAILED, held by the assigned agent, never stale |
| Finality.FieldsCohere | internal/store/memory.go:98-101 | assignee, StartedAt and FinishedAt agree with the status in every reachable state, RETRYING is never stored |
| JobTimes.TimesInOrderIff | internal/store/memory.go:98-225 | throughout a run every job has CreatedAt <= StartedAt <= FinishedAt iff no reading written into a job is behind its hand-out or creation |
| JobTimes.ClockKeepsOrder | internal/api/jobs.go:37 | a clock that is not set back keeps them in order, even if creations read it before they get the lock |
| JobTimes.TimesCanCross | internal/store/memory.go:184-187 | a concrete run in which a job starts before it was created |
| Finality.FinishedAtOfALiveJob | internal/store/memory.go:213-224 | a live job has FinishedAt set iff it was canceled in the run |
| RecordHistory.RecordFollowsItsEvents | internal/store/memory.go:37-231 | in every run each field of every job follows from the events that concerned it: request fields and CreatedAt from the creation, status from the last event, assignee and StartedAt from the last hand-out unless requeued since, FinishedAt from the last cancel or finishing result, the rest from hand-outs and results |
| RecordHistory.CanceledIff | internal/store/memory.go:86-231 | in every run a job is CANCELED iff it was canceled and no result was recorded since |
| Finality.AttemptAccounting | internal/store/memory.go:184-230 | in every run AttemptCount is the number of hand-outs and at most B, a PENDING job has some left, a FAILED job had exactly B; its logs and result are those delivered |
| Ledger.BalanceStep | internal/store/memory.go:184-230 | every event keeps the balance of hand-outs, recorded answers, losses and the attempt in flight |
| Ledger.HandOutsBalance | internal/store/memory.go:184-230 | in every run hand-outs are the recorded answers plus at most one loss plus the one in flight; FAILED means exactly B answers, all FAILED; SUCCESS means the last answer is SUCCESS and all before it FAILED |
| Finality.SuccessAndFailedAreFinal | internal/store/memory.go:198-231 | in no run does the record of a SUCCESS or FAILED job change |
| Finality.CanceledWhilePendingIsFinal | internal/store/memory.go:94-102 | a job canceled while PENDING keeps that record in every run |
| Finality.CanceledUntilItsResult | internal/store/memory.go:94-102 | a job canceled while RUNNING keeps its record until exactly the outstanding attempt reports |
| Finality.AbandonedStaysRunning | internal/agent/worker.go:169-175 | a RUNNING job whose attempt was lost changes only by a cancel, and then stays canceled |
| Finality.RunningIsLeftIffInFlight | internal/agent/worker.go:169-175 | some run without a cancel of a RUNNING job takes it out of RUNNING iff its attempt is in flight |
| Finality.LostAttemptAbandonsItsJob | internal/agent/worker.go:169-175 | a concrete run after which a job is RUNNING with nobody at work on it |
| Finality.TerminalIsFinalUnlessRevivable | internal/model/model.go:21-24 | a terminal job can become live in some run iff it is canceled, in flight and has retries left |
| Finality.LateFailureRevives | internal/store/memory.go:213-224 | a concrete run in which it does |
| Liveness.OvertakingSpends | internal/store/memory.go:170-191 | a compatible poll that passes over a PENDING job gives out an earlier one and spends one of its attempts |
| Liveness.BoundedOvertaking | internal/store/memory.go:170-224 | while a job stays PENDING, compatible polls go elsewhere at most as often as earlier jobs have attempts left |
| Liveness.NoStarvation | internal/store/memory.go:170-224 | after more compatible polls than that, an uncanceled PENDING job has been handed out |
| Liveness.MeasureFalls | internal/store/memory.go:86-231 | the measure strictly falls at every hand-out, report, loss and cancel, and otherwise grows only by what a new job brings |
| Liveness.WorkIsPaidFor | internal/store/memory.go:86-231 | over every run, working steps are bounded by the fall of the measure and what new jobs bring |
| Liveness.RunsTerminate | internal/store/memory.go:86-231 | at most 4*B + 1 working steps per job created, at most the measure without creations |
| Draining.RunningMeansInFlight | internal/agent/worker.go:112-176 | runs without losses leave no RUNNING job without its attempt in flight |
| Draining.AgentsDrainTogether | internal/agent/worker.go:83-176 | for any number of agents: with nothing lost and nothing in flight, a poll finds nothing iff every job of its types is terminal |
| Draining.DrainBound | internal/agent/worker.go:83-176 | without losses and new jobs of some types, after more polls for them with none of them in flight than attempts left, every job of these types is terminal for good |
| Draining.VainPollsDoNotDrain | internal/store/memory.go:170-224 | a concrete run with more compatible polls than attempts left, nothing lost, created or in flight, and the job PENDING |
| Freshness.OnlineIffSeenAfterSweep | internal/store/memory.go:239-253 | right after a sweep an online agent was seen within the threshold, and exactly these are online unless an earlier sweep had a later reading |
| Freshness.SweepBehindAnEarlierOne | internal/store/memory.go:243-249 | for any two sweep readings that go back there is a run that ends with an agent offline though seen within the threshold |
| Freshness.OnlineBoundIff | internal/store/memory.go:119-132 | throughout a run an online agent was seen at most the threshold before the last sweep (or the start) iff no effective registration or heartbeat has a reading older than that |
| Freshness.StatusBoundsSilence | internal/api/server.go:62-72 | in every run, offline means silent beyond the threshold; if nothing was late, online bounds the silence by threshold plus time since the last sweep, or since the start |
| Freshness.OnlineMeansRecentlySeen | internal/api/server.go:62-72 | in a run whose sweeps come on time and nothing is late, an online agent is silent for at most threshold plus interval |
| Freshness.ShippedBound | cmd/server/main.go:46-48 | 45 s with the shipped settings |
| AgentHistory.AgentFollowsItsEvents | internal/store/memory.go:110-132 | in every run each field of every agent follows from the events that concerned it: the descriptive fields from the last registration, LastSeen from the last registration or heartbeat, the status from the sweeps since |
| AgentHistory.OnlineIffInTime | internal/store/memory.go:119-132 | an agent's LastSeen is the reading of its last registration or heartbeat, and it is online iff each sweep since reads at most the threshold later |
| Interleaving.StatementKeeps | internal/store/memory.go:37-253 | each statement of each method keeps what its point in the method knows |
| Interleaving.BodyEnds | internal/store/memory.go:37-253 | each statement lowers a bound on the statements left, so a lock is held for boundedly many |
| Interleaving.BodyIsNeverStuck | internal/store/memory.go:37-253 | a method body that has not returned can go on, from every state it can be in |
| Linearizability.EveryInterleavingIsSequential | internal/store/memory.go:37-253 | every interleaving gives the replies and the final fields of one atomic order, which respects real time |
| Linearizability.ListJobsIsASnapshot | internal/store/memory.go:51-62 | ListJobs returns the exact list of one instant between its call and its return |
| CallEffects.PromisesInEveryInterleaving | internal/store/memory.go:37-253 | in every interleaving each reply of each method is the promised one for the store of one instant between call and return |
| Linearizability.WritersAreAlone | internal/store/memory.go:15-21 | two threads are inside together only if both read |
| LockProgress.SomeoneGoesOn | internal/store/memory.go:15-21 | while a call has not returned, some thread can go on, although a waiting writer keeps readers out |
| LockProgress.StepIsPaidFor | internal/store/memory.go:37-253 | each step of a thread lowers the bound on all steps to come, although CreateJob and RegisterAgent lengthen the bodies of others |
| LockProgress.EveryCallReturns | internal/store/memory.go:37-253 | without new calls the threads make at most a bounded number of steps, whichever goes on, and are stuck exactly when all calls have returned |
| LockWaiting.ActingCounts | internal/store/memory.go:37-253 | while a writer is announced, each step of a thread announced or inside lowers what is ahead, and no arrival raises it |
| LockWaiting.WaitsAreBounded | internal/store/memory.go:15-21 | with any new calls meanwhile, an announced writer waits for at most the steps the readers inside had left, a blocked reader for these and the announced writer's, and until then one of them can act |
| Composition.EveryInterleavingIsARun | internal/store/memory.go:37-253 | for well-behaved clients every interleaving's writes are the calls of a protocol run, the fields are those of its reachable state, hand-outs are answered once or in flight |
| Composition.ExclusiveInEveryInterleaving | internal/store/memory.go:171-230 | for well-behaved clients, in every interleaving a job has at each point been given out as often as answered or once more, which is its AttemptCount and at most B |
| Composition.FinishedInEveryInterleaving | internal/store/memory.go:198-231 | for well-behaved clients, in every interleaving a job that was once SUCCESS, FAILED, or CANCELED with every hand-out answered keeps its whole record |
| Composition.TerminalInEveryInterleaving | internal/store/memory.go:198-231 | from any point of an interleaving some continuation of the log by well-behaved clients makes a terminal job live iff it is CANCELED, a hand-out is unanswered and attempts are left |
| Snapshots.Append | internal/store/memory.go:208 | append in place or with growth adds the elements and keeps what shorter slices of the array show |
| Snapshots.SlicedLogs.Complete | internal/store/memory.go:208-222 | no copy returned earlier changes what it shows, although the array is shared |
| Snapshots.SlicedLogs.Return | internal/store/memory.go:65-71 | a returned copy shares the stored slice |
| Handlers.Server.HandleCreateJob | internal/api/jobs.go:14-57 | 400 and no change for a malformed request, 500 for a known ID, otherwise exactly one new PENDING job with the request's fields and timeout, or 30 s if none was given |
| Handlers.Server.HandleCancelJob | internal/api/jobs.go:97-122 | without interleaving 200, 404, 409 exactly for live, absent, terminal jobs; 200 sets CANCELED and FinishedAt to the time of the cancel and nothing else |
| Handlers.Server.HandleJobResult | internal/api/assignment.go:56-103 | 400, 404, or the answer recorded in the job (requeued if FAILED with attempts left, else finished) and the updated job returned |
| Handlers.Server.HandleNextJob | internal/api/assignment.go:11-52 | 200 with the oldest compatible PENDING job, handed out now, 204 iff there is none, 500 iff the agent is unknown |
| Handlers.Server.HandleRegisterAgent | internal/api/agents.go:11-54 | 400 and no change for a malformed request, otherwise an online agent with exactly the request's fields is stored and returned |
| Handlers.Server.HandleHeartbeat | internal/api/agents.go:57-73 | 200 with LastSeen set to now and the agent online, or 404 and no change |
| Handlers.Server.RunHealthChecker | internal/api/server.go:62-72 | the loop sweeps once per tick: an agent ends offline iff it was, or was seen more than the threshold before some tick; nothing else changes |
| Handlers.ResultHandlerNeverMisses | internal/api/assignment.go:74-94 | once the job was seen, no other calls make CompleteJob or the re-fetch miss it |
| Handlers.RefusedCancelCanFailIff | internal/api/jobs.go:104-115 | with interleaving and any ID generator a refused cancel can end in 500 iff the job was absent and its ID can be generated, or was canceled in flight with retries left |
| Worker.RoundSpends | internal/agent/worker.go:112-176 | a round uses up at least one offered attempt, exactly one if the answer is FAILED |
| Worker.ReachableIsDrainable | internal/store/memory.go:171-190 | reachable states without RUNNING jobs of the types meet the hypothesis of the drain loop |
| Worker.Worker.PollAndExecute | internal/agent/worker.go:112-176 | one poll, at most one result, with the wrapped timeout and its fallback |
| Worker.Worker.RoundRecordsTheAnswer | internal/agent/worker.go:112-176 | a round that found a job hands out the oldest compatible one and records in it the executor's own answer for timeoutSeconds * 1 s (up to 9223372036 s), or a FAILED one without an executor |
| Worker.Worker.Run | internal/agent/worker.go:47-92 | alone, the loop works at most as often as attempts were offered, exactly so if all answers fail; then every job of its types is terminal, and each that was PENDING has the status every executor answers with, FAILED without an executor; other jobs are untouched |

## Left out

- Executors, HTTP and JSON encoding, the agent's HTTP client: an attempt is answered arbitrarily or lost.
- Middleware, routing, authentication, logging, configuration, signals and shutdown.
- Random ID generation: IDs are arbitrary, or those of an arbitrary generator; CreateJob refuses duplicates.
- Error message texts: only which error it is.
- Timer ticks: the health checker and the worker run for a given sequence of ticks; the heartbeat loop appears only as
  heartbeat events of the protocol.
- The instructions inside Lock and Unlock: announcing a writer, going in and unlocking are one step each.
- Integer width of AttemptCount: it never exceeds max(1, MaxRetries), so it cannot overflow.
- Snapshots.SlicedLogs.Return: one copy per call; ListJobs makes one such copy for each job.
- Aliasing of logs inside the store class: there logs are values; `Snapshots` has the backing arrays on their own.
- Response bodies other than one job or one agent: the list handlers, the acknowledgements of a cancel and of a
  heartbeat, which repeat the ID, and the error bodies.
- Callers that append to a returned log slice themselves: no handler does.
- UpdateJob: called by no handler, so it is part of the class only and not of calls, runs or interleavings.
