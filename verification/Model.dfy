/** Small datatypes used by every other module. */
module Wrappers {
  datatype Option<+T> = None | Some(value: T)

  datatype Result<+T, +E> = Ok(value: T) | Err(error: E)
}

/** The server's entities: jobs, agents and the answers of the store. */
module Model {
  import opened Wrappers

  /** Nanoseconds since an arbitrary origin. */
  type Time = int

  const SECOND: Time := 1_000_000_000

  type JobType = string

  /** A JSON object, or nil; the values are carried through unchanged. */
  type Payload = Option<map<string, string>>

  /** A job status is a string in the source; `Other` stands for every text that is not one of the six names. */
  datatype JobStatus = Pending | Running | Retrying | Success | Failed | Canceled | Other(text: string)
  {
    predicate IsTerminal() {
      Success? || Failed? || Canceled?
    }
  }

  const ALL_JOB_TYPES: set<JobType> :=
    {"http_check", "tcp_check", "file_exists", "checksum", "copy_file", "write_file", "wait"}

  datatype Job = Job(
    id: string,
    name: string,
    jobType: JobType,
    payload: Payload,
    status: JobStatus,
    assignedAgentId: string,
    createdAt: Time,
    startedAt: Option<Time>,
    finishedAt: Option<Time>,
    attemptCount: int,
    maxRetries: int,
    timeoutSeconds: int,
    logs: seq<string>,
    error: string,
    result: Payload)

  datatype AgentStatus = Online | Offline

  datatype Agent = Agent(
    id: string,
    hostname: string,
    os: string,
    arch: string,
    version: string,
    capabilities: seq<JobType>,
    lastSeen: Time,
    status: AgentStatus)

  /** What an executor reports about one attempt. */
  datatype Answer = Answer(status: JobStatus, logs: seq<string>, result: Payload, error: string)

  datatype StoreError =
    | JobExists(id: string)
    | JobNotFound(id: string)
    | JobTerminal(id: string, status: JobStatus)
    | AgentNotFound(id: string)

  /** The number of times a job can be handed out: the retry test runs after the attempt was counted. */
  function Budget(job: Job): int {
    if job.maxRetries < 1 then 1 else job.maxRetries
  }
}
