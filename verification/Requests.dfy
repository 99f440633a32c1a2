/** The request bodies, what the server accepts, and the records it builds from them. */
module Requests {
  import opened Wrappers
  import opened Model

  datatype CreateJobRequest = CreateJobRequest(
    name: string, jobType: JobType, payload: Payload, timeoutSeconds: int, maxRetries: int)

  datatype RegisterAgentRequest = RegisterAgentRequest(
    id: string, hostname: string, os: string, arch: string, version: string, capabilities: seq<string>)

  const DEFAULT_TIMEOUT_SECONDS := 30

  /** White space as `strings.TrimSpace` cuts it. */
  predicate IsSpace(c: char) {
    || '\U{0009}' <= c <= '\U{000D}' || c == ' ' || c == '\U{0085}' || c == '\U{00A0}' || c == '\U{1680}'
    || '\U{2000}' <= c <= '\U{200A}' || c == '\U{2028}' || c == '\U{2029}' || c == '\U{202F}' || c == '\U{205F}'
    || c == '\U{3000}'
  }

  predicate IsBlank(s: string) {
    forall i | 0 <= i < |s| :: IsSpace(s[i])
  }

  /** The payload keys each job type needs. */
  function RequiredKeys(jobType: JobType): set<string> {
    match jobType
    case "http_check" => {"url"}
    case "tcp_check" => {"address"}
    case "file_exists" => {"path"}
    case "checksum" => {"path"}
    case "copy_file" => {"source", "destination"}
    case "write_file" => {"path", "content"}
    case "wait" => {"duration_seconds"}
    case _ => {}
  }

  predicate AcceptsCreate(r: CreateJobRequest) {
    && !IsBlank(r.name) && r.jobType in ALL_JOB_TYPES
    && r.payload.Some? && RequiredKeys(r.jobType) <= r.payload.value.Keys
    && 0 <= r.timeoutSeconds && 0 <= r.maxRetries
  }

  predicate AcceptsRegister(r: RegisterAgentRequest) {
    !IsBlank(r.id) && r.capabilities != []
  }

  predicate AcceptsResult(answer: Answer) {
    answer.status == Success || answer.status == Failed
  }

  /** The record handleCreateJob stores. */
  function NewJob(r: CreateJobRequest, id: string, now: Time): Job {
    Job(id, r.name, r.jobType, r.payload, Pending, "", now, None, None, 0, r.maxRetries,
        if r.timeoutSeconds == 0 then DEFAULT_TIMEOUT_SECONDS else r.timeoutSeconds, [], "", None)
  }

  /** The record handleRegisterAgent stores. */
  function NewAgent(r: RegisterAgentRequest, now: Time): Agent {
    Agent(r.id, r.hostname, r.os, r.arch, r.version, r.capabilities, now, Online)
  }
}
