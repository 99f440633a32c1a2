/** The Validate methods: field errors are written one by one into a shared map. */
module Validation {
  import opened Wrappers
  import opened Model
  import opened Requests

  class ValidationError {
    var fields: map<string, string>

    constructor ()
      ensures fields == map[]
    {
      fields := map[];
    }

    predicate HasErrors()
      reads this
      ensures HasErrors() <==> fields.Keys != {}
    {
      assert fields.Keys == {} ==> fields == map[];
      fields != map[]
    }

    method Note(field: string, message: string)
      modifies this
      ensures fields == old(fields)[field := message]
      ensures fields.Keys == old(fields.Keys) + {field}
    {
      fields := fields[field := message];
    }

    method ValidatePayloadKey(payload: map<string, string>, key: string)
      modifies this
      ensures fields.Keys == old(fields.Keys) + Missing(payload, {key})
    {
      if key !in payload {
        Note("payload." + key, "required field missing");
      }
    }
  }

  // ---- The fields that are reported ----

  function MissingKeys(r: CreateJobRequest): set<string> {
    if r.payload == None then {} else Missing(r.payload.value, RequiredKeys(r.jobType))
  }

  function Missing(payload: map<string, string>, keys: set<string>): set<string> {
    set key | key in keys && key !in payload :: "payload." + key
  }

  lemma MissingOfTwo(payload: map<string, string>, a: string, b: string)
    ensures Missing(payload, {a, b}) == Missing(payload, {a}) + Missing(payload, {b})
  {
  }

  lemma NothingMissing(r: CreateJobRequest)
    ensures MissingKeys(r) == {} <==> r.payload == None || RequiredKeys(r.jobType) <= r.payload.value.Keys
  {
    forall key | r.payload.Some? && key in RequiredKeys(r.jobType) && key !in r.payload.value
      ensures "payload." + key in MissingKeys(r)
    {
    }
  }

  function Reported(bad: bool, field: string): set<string> {
    if bad then {field} else {}
  }

  /** The fields of a create request that are in error. */
  function CreateErrors(r: CreateJobRequest): (fields: set<string>)
    ensures fields == {} <==> AcceptsCreate(r)
  {
    NothingMissing(r);
    HeaderErrors(r) + MissingKeys(r)
  }

  function HeaderErrors(r: CreateJobRequest): set<string> {
    NamingErrors(r) + LimitErrors(r)
  }

  function NamingErrors(r: CreateJobRequest): set<string> {
    Reported(IsBlank(r.name), "name") + Reported(r.jobType !in ALL_JOB_TYPES, "type")
  }

  function LimitErrors(r: CreateJobRequest): set<string> {
    Reported(r.payload == None, "payload") + Reported(r.timeoutSeconds < 0, "timeout_seconds")
    + Reported(r.maxRetries < 0, "max_retries")
  }

  /** Which fields are reported, one by one. */
  lemma ErrorsMean(r: CreateJobRequest, key: string)
    ensures "name" in CreateErrors(r) <==> forall i | 0 <= i < |r.name| :: IsSpace(r.name[i])
    ensures "type" in CreateErrors(r) <==>
      r.jobType !in {"http_check", "tcp_check", "file_exists", "checksum", "copy_file", "write_file", "wait"}
    ensures "payload" in CreateErrors(r) <==> r.payload == None
    ensures "timeout_seconds" in CreateErrors(r) <==> r.timeoutSeconds < 0
    ensures "max_retries" in CreateErrors(r) <==> r.maxRetries < 0
    ensures "payload." + key in CreateErrors(r) <==>
      r.payload.Some? && key !in r.payload.value && (r.jobType, key) in
        {("http_check", "url"), ("tcp_check", "address"), ("file_exists", "path"), ("checksum", "path"),
         ("copy_file", "source"), ("copy_file", "destination"), ("write_file", "path"), ("write_file", "content"),
         ("wait", "duration_seconds")}
  {
    var field := "payload." + key;
    assert field[0] == 'p' && |field| >= 8;
    assert "payload" != field;
    MissingNamesKeys(r, key);
    forall name | name in {"name", "type", "payload", "timeout_seconds", "max_retries"}
      ensures name !in MissingKeys(r)
    {
      NotAPayloadKey(r, name);
    }
  }

  /** The same of registrations and results. */
  lemma OtherErrorsMean(r: RegisterAgentRequest, answer: Answer)
    ensures "id" in RegisterErrors(r) <==> forall i | 0 <= i < |r.id| :: IsSpace(r.id[i])
    ensures "capabilities" in RegisterErrors(r) <==> |r.capabilities| == 0
    ensures "status" in ResultErrors(answer) <==> answer.status !in {Success, Failed}
  {
    assert "id" != "capabilities";
  }

  lemma MissingNamesKeys(r: CreateJobRequest, key: string)
    ensures "payload." + key in MissingKeys(r) <==>
      r.payload.Some? && key !in r.payload.value && key in RequiredKeys(r.jobType)
  {
    if "payload." + key in MissingKeys(r) {
      var other :|
        other in RequiredKeys(r.jobType) && other !in r.payload.value && "payload." + key == "payload." + other;
      assert ("payload." + key)[8..] == key && ("payload." + other)[8..] == other;
    }
  }

  lemma NotAPayloadKey(r: CreateJobRequest, field: string)
    requires field in {"name", "type", "payload", "timeout_seconds", "max_retries"}
    ensures field !in MissingKeys(r)
  {
    forall key: string
      ensures "payload." + key != field
    {
      assert ("payload." + key)[0] == 'p' && |"payload." + key| >= 8;
    }
  }

  function RegisterErrors(r: RegisterAgentRequest): (fields: set<string>)
    ensures fields == {} <==> AcceptsRegister(r)
  {
    Reported(IsBlank(r.id), "id") + Reported(r.capabilities == [], "capabilities")
  }

  function ResultErrors(answer: Answer): (fields: set<string>)
    ensures fields == {} <==> AcceptsResult(answer)
  {
    Reported(!AcceptsResult(answer), "status")
  }

  /** `strings.TrimSpace`: what is left has no white space at its ends. */
  method TrimSpace(s: string) returns (r: string)
    ensures r == "" <==> IsBlank(s)
    ensures r != "" ==> !IsSpace(r[0]) && !IsSpace(r[|r| - 1])
    ensures exists i, j :: 0 <= i <= j <= |s| && r == s[i..j] && IsBlank(s[..i]) && IsBlank(s[j..])
  {
    var i, j := 0, |s|;
    while i < j && IsSpace(s[i])
      invariant 0 <= i <= j
      invariant forall k | 0 <= k < i :: IsSpace(s[k])
    {
      i := i + 1;
    }
    while i < j && IsSpace(s[j - 1])
      invariant i <= j <= |s|
      invariant forall k | j <= k < |s| :: IsSpace(s[k])
      invariant i < |s| ==> !IsSpace(s[i])
      decreases j
    {
      j := j - 1;
    }
    r := s[i..j];
    assert IsBlank(s[..i]) && IsBlank(s[j..]);
  }

  /** Returns nil exactly for the requests the server accepts, and otherwise reports exactly the fields in error. */
  method ValidateCreate(r: CreateJobRequest) returns (ve: ValidationError?)
    ensures ve == null <==> AcceptsCreate(r)
    ensures ve != null ==> fresh(ve) && ve.fields.Keys == CreateErrors(r)
  {
    ve := new ValidationError();
    ValidateHeader(ve, r);
    if r.payload != None {
      ValidatePayload(ve, r);
    } else {
      assert MissingKeys(r) == {};
    }
    assert ve.fields.Keys == CreateErrors(r);
    if !ve.HasErrors() {
      ve := null;
    }
  }

  /** The checks that do not depend on the job type. */
  method ValidateHeader(ve: ValidationError, r: CreateJobRequest)
    requires ve.fields == map[]
    modifies ve
    ensures ve.fields.Keys == HeaderErrors(r)
  {
    ValidateNaming(ve, r);
    ValidateLimits(ve, r);
  }

  method ValidateNaming(ve: ValidationError, r: CreateJobRequest)
    requires ve.fields == map[]
    modifies ve
    ensures ve.fields.Keys == NamingErrors(r)
  {
    var name := TrimSpace(r.name);
    if name == "" {
      ve.Note("name", "must not be empty");
    }
    assert ve.fields.Keys == Reported(IsBlank(r.name), "name");
    if r.jobType == "" {
      ve.Note("type", "must not be empty");
    } else if r.jobType !in ALL_JOB_TYPES {
      ve.Note("type", "unsupported job type");
    }
  }

  method ValidateLimits(ve: ValidationError, r: CreateJobRequest)
    modifies ve
    ensures ve.fields.Keys == old(ve.fields.Keys) + LimitErrors(r)
  {
    if r.payload == None {
      ve.Note("payload", "must not be null");
    }
    if r.timeoutSeconds < 0 {
      ve.Note("timeout_seconds", "must be >= 0");
    }
    if r.maxRetries < 0 {
      ve.Note("max_retries", "must be >= 0");
    }
  }

  /** The per-type payload checks. */
  method ValidatePayload(ve: ValidationError, r: CreateJobRequest)
    requires r.payload != None
    modifies ve
    ensures ve.fields.Keys == old(ve.fields.Keys) + MissingKeys(r)
  {
    var payload := r.payload.value;
    match r.jobType {
      case "http_check" => ve.ValidatePayloadKey(payload, "url");
      case "tcp_check" => ve.ValidatePayloadKey(payload, "address");
      case "file_exists" => ve.ValidatePayloadKey(payload, "path");
      case "checksum" => ve.ValidatePayloadKey(payload, "path");
      case "copy_file" =>
        ve.ValidatePayloadKey(payload, "source");
        ve.ValidatePayloadKey(payload, "destination");
        MissingOfTwo(payload, "source", "destination");
      case "write_file" =>
        ve.ValidatePayloadKey(payload, "path");
        ve.ValidatePayloadKey(payload, "content");
        MissingOfTwo(payload, "path", "content");
      case "wait" => ve.ValidatePayloadKey(payload, "duration_seconds");
      case _ =>
    }
  }

  method ValidateRegister(r: RegisterAgentRequest) returns (ve: ValidationError?)
    ensures ve == null <==> AcceptsRegister(r)
    ensures ve != null ==> fresh(ve) && ve.fields.Keys == RegisterErrors(r)
  {
    ve := new ValidationError();
    var id := TrimSpace(r.id);
    if id == "" {
      ve.Note("id", "must not be empty");
    }
    if |r.capabilities| == 0 {
      ve.Note("capabilities", "must include at least one capability");
    }
    assert ve.fields.Keys == RegisterErrors(r);
    if !ve.HasErrors() {
      ve := null;
    }
  }

  method ValidateResult(answer: Answer) returns (ve: ValidationError?)
    ensures ve == null <==> AcceptsResult(answer)
    ensures ve != null ==> fresh(ve) && ve.fields.Keys == ResultErrors(answer)
  {
    ve := new ValidationError();
    if answer.status != Success && answer.status != Failed {
      ve.Note("status", "must be SUCCESS or FAILED");
    }
    assert ve.fields.Keys == ResultErrors(answer);
    if !ve.HasErrors() {
      ve := null;
    }
  }
}
