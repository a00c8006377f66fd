/** The server half of the release verifier protocol v2: checking a request, evaluating it, attesting the report. */
module VerifierServer {
  import opened Wrappers
  import opened Arithmetic
  import opened Unicode
  import opened JsonText
  import opened ReplayFile
  import opened ReplayStore
  import opened VerifierEnvelope

  datatype Config = Config(
    mode: string, acceptedDeployments: seq<string>, allowedOrigins: seq<string>, replayEntries: int)

  datatype Accepted = Accepted(
    requestId: string, nonceDigest: string, operation: string, scope: Json, payload: Json,
    scopeDigest: string, payloadDigest: string, issuedAt: string, expiresAt: string)

  /** Thrown stands for an exception that leaves the check, which the server answers with status 500. */
  datatype Verdict = Admitted(request: Accepted) | Rejected(status: int, code: string) | Thrown

  function OperationForPath(path: string): Option<string>
  {
    if path == "/v2/readiness" then Some("readiness")
    else if path == "/v2/candidates/verify" then Some("candidate")
    else if path == "/v2/installations/verify" then Some("installation")
    else None
  }

  predicate ValidBearer(authorization: Option<string>, token: string)
  {
    authorization.Some? && "Bearer " <= authorization.value && authorization.value[7..] == token
  }

  predicate CommonScope(p: Platform, v: Json)
  {
    && v.Obj?
    && "projectId" in v.fields && UuidField(v.fields["projectId"])
    && "sourceIdentityHash" in v.fields && HashField(v.fields["sourceIdentityHash"])
    && "targetOrigin" in v.fields && v.fields["targetOrigin"].Str? && ExactOrigin(p, v.fields["targetOrigin"].s)
    && "environment" in v.fields && v.fields["environment"].Str? && v.fields["environment"].s in ENVIRONMENTS
  }

  const READINESS_SCOPE_KEYS := {"deploymentIdentityDigest", "operation"}
  const CANDIDATE_SCOPE_KEYS := {
    "analysisRunId", "contentHash", "environment", "operation", "projectId", "sourceIdentityHash", "targetOrigin"}
  const INSTALLATION_SCOPE_KEYS := {
    "environment", "installationOperationId", "operation", "pageUrl", "projectId", "releaseId",
    "selectedHash", "sourceIdentityHash", "targetOrigin"}

  predicate ValidScope(p: Platform, v: Json, operation: string)
  {
    if !v.Obj? || "operation" !in v.fields || v.fields["operation"] != Str(operation) then false
    else if operation == "readiness" then
      ExactKeys(v, READINESS_SCOPE_KEYS) && HashField(v.fields["deploymentIdentityDigest"])
    else if !CommonScope(p, v) then false
    else if operation == "candidate" then
      ExactKeys(v, CANDIDATE_SCOPE_KEYS)
      && UuidField(v.fields["analysisRunId"]) && HashField(v.fields["contentHash"])
    else
      ExactKeys(v, INSTALLATION_SCOPE_KEYS)
      && UuidField(v.fields["releaseId"]) && HashField(v.fields["installationOperationId"])
      && HashField(v.fields["selectedHash"])
      && v.fields["pageUrl"].Str? && ExactPage(p, v.fields["pageUrl"].s, v.fields["targetOrigin"].s)
  }

  /** The shape of an envelope, in the order the checks are made. */
  function CheckEnvelope(p: Platform, v: Json, operation: string): (c: Check)
    ensures c == Pass ==> ExactKeys(v, REQUEST_KEYS)
  {
    if !ExactKeys(v, REQUEST_KEYS) then Fail
    else
      var f := v.fields;
      if f["schema"] == Str("ReleaseVerifierRequestV2") && f["protocolVersion"] == Num(2)
        && f["operation"] == Str(operation)
        && UuidField(f["requestId"]) && f["nonce"].Str? && IsNonce(f["nonce"].s)
        && HashField(f["scopeDigest"]) && HashField(f["payloadDigest"])
      then
        And(ValidTimestamp(p, f["issuedAt"]), And(ValidTimestamp(p, f["expiresAt"]),
          if ValidScope(p, f["scope"], operation) then Pass else Fail))
      else Fail
  }

  function RequestKey(requestId: string): string
  {
    "request:" + requestId
  }

  function NonceKey(nonceDigest: string): string
  {
    "nonce:" + nonceDigest
  }

  function Invalid(code: string): Verdict
  {
    Rejected(400, code)
  }

  /** The checks before the replay store is asked: the request as it would be admitted, or why not. */
  function Examine(
    p: Platform, operation: string, body: string, authorization: Option<string>, signed: bool, now: Option<int>)
    : (v: Verdict)
  {
    if ByteLength(body) > MAX_REQUEST_BYTES then Rejected(413, "RELEASE_VERIFIER_REQUEST_TOO_LARGE")
    else if !ValidBearer(authorization, p.token) then Rejected(401, "RELEASE_VERIFIER_UNAUTHORIZED")
    else if !signed then Rejected(401, "RELEASE_VERIFIER_SIGNATURE_INVALID")
    else
      match ParseCanonical(body)
      case None => Invalid("RELEASE_VERIFIER_REQUEST_INVALID")
      case Some(v) =>
        var check := CheckEnvelope(p, v, operation);
        if check == Throw then Thrown
        else if check == Fail then Invalid("RELEASE_VERIFIER_REQUEST_INVALID")
        else
          var f := v.fields;
          var scopeDigest, payloadDigest := p.sha256(Canonical(f["scope"])), p.sha256(Canonical(f["payload"]));
          if f["scopeDigest"] != Str(scopeDigest) || f["payloadDigest"] != Str(payloadDigest) then
            Invalid("RELEASE_VERIFIER_REQUEST_INVALID")
          else if now.None? then Rejected(500, "RELEASE_VERIFIER_TIME_INVALID")
          else
            var issuedAt, expiresAt := DateOf(p, f["issuedAt"].s), DateOf(p, f["expiresAt"].s);
            if expiresAt <= issuedAt || expiresAt - issuedAt > MAX_LIFETIME_MS then
              Invalid("RELEASE_VERIFIER_REQUEST_LIFETIME_INVALID")
            else if issuedAt > now.value then Invalid("RELEASE_VERIFIER_REQUEST_FUTURE")
            else if expiresAt <= now.value then Invalid("RELEASE_VERIFIER_REQUEST_EXPIRED")
            else
              Admitted(Accepted(
                f["requestId"].s, p.sha256(f["nonce"].s), operation, f["scope"], f["payload"],
                scopeDigest, payloadDigest, f["issuedAt"].s, f["expiresAt"].s))
  }

  /** Both keys of a request, the second only when the first is admitted; a refusal keeps what was admitted. */
  function AdmitKeys(
    d: Durable, max: int, open: bool, requestId: string, nonceDigest: string, expiresAt: int, now: int,
    w1: Write, w2: Write): (bool, Durable)
  {
    var (first, d1) := AdmitDurable(d, max, open, RequestKey(requestId), expiresAt, now, w1);
    if !first then (false, d1)
    else AdmitDurable(d1, max, open, NonceKey(nonceDigest), expiresAt, now, w2)
  }

  /** `verifyVerifierRequest` on the durable store. */
  function VerifyRequest(
    p: Platform, operation: string, body: string, authorization: Option<string>, signed: bool, now: Option<int>,
    d: Durable, max: int, open: bool, w1: Write, w2: Write): (Verdict, Durable)
  {
    match Examine(p, operation, body, authorization, signed, now)
    case Admitted(r) =>
      var instant := match now case Some(t) => t case None => 0;
      var (ok, d') := AdmitKeys(d, max, open, r.requestId, r.nonceDigest, DateOf(p, r.expiresAt), instant, w1, w2);
      (if ok then Admitted(r) else Rejected(409, "RELEASE_VERIFIER_REQUEST_REPLAYED"), d')
    case verdict => (verdict, d)
  }

  method VerifyVerifierRequest(
    p: Platform, operation: string, body: string, authorization: Option<string>, signed: bool, now: Option<int>,
    store: DurableReplayStore, w1: Write, w2: Write) returns (verdict: Verdict)
    requires store.Valid()
    modifies store`file, store`log, store.admitted
    ensures store.Valid()
    ensures (verdict, store.State()) == VerifyRequest(
      p, operation, body, authorization, signed, now, old(store.State()), store.maxEntries, store.open, w1, w2)
  {
    verdict := Examine(p, operation, body, authorization, signed, now);
    if verdict.Admitted? {
      var r := verdict.request;
      var instant := match now case Some(t) => t case None => 0;
      var ok := store.Admit(RequestKey(r.requestId), DateOf(p, r.expiresAt), instant, w1);
      if ok {
        ok := store.Admit(NonceKey(r.nonceDigest), DateOf(p, r.expiresAt), instant, w2);
      }
      if !ok {
        verdict := Rejected(409, "RELEASE_VERIFIER_REQUEST_REPLAYED");
      }
    }
  }

  // ---- Evaluation and attestation ----

  datatype Outcome = Report(report: Json) | Refused(code: string)

  /** `evaluate`, where `observed` is what the candidate or installation verifier reports. */
  function Evaluate(c: Config, r: Accepted, observed: Outcome): Outcome
  {
    if r.operation == "readiness" then
      if c.acceptedDeployments != [] && !DeploymentKnown(c, r.scope) then
        Refused("RELEASE_VERIFIER_DEPLOYMENT_IDENTITY_UNKNOWN")
      else
        Report(Obj(map[
          "mode" := Str(c.mode), "protocolVersion" := Num(2), "webMcpImplementation" := Str("native")]))
    else if !OriginAllowed(c, r.scope) then Refused("RELEASE_VERIFIER_TARGET_ORIGIN_FORBIDDEN")
    else observed
  }

  predicate DeploymentKnown(c: Config, scope: Json)
  {
    && scope.Obj? && "deploymentIdentityDigest" in scope.fields && scope.fields["deploymentIdentityDigest"].Str?
    && scope.fields["deploymentIdentityDigest"].s in c.acceptedDeployments
  }

  predicate OriginAllowed(c: Config, scope: Json)
  {
    && scope.Obj? && "targetOrigin" in scope.fields && scope.fields["targetOrigin"].Str?
    && scope.fields["targetOrigin"].s in c.allowedOrigins
  }

  function Clamp(now: int, issuedAt: int, expiresAt: int): int
  {
    Min(Max(now, issuedAt), expiresAt - 1)
  }

  datatype Attested = Attested(attestation: Attestation, report: Json, body: string)

  /** `buildAttestationResponse`; `now` is None for an invalid date. */
  function BuildAttestation(p: Platform, r: Accepted, report: Json, now: Option<int>, attestationId: string)
    : Result<Attested, string>
  {
    var issuedAt, expiresAt := DateOf(p, r.issuedAt), DateOf(p, r.expiresAt);
    if now.None? || Clamp(now.value, issuedAt, expiresAt) < issuedAt then
      Err("RELEASE_VERIFIER_ATTESTATION_WINDOW_CLOSED")
    else if !IsUuidV4(attestationId) then Err("RELEASE_VERIFIER_ATTESTATION_INVALID")
    else
      var attestedAt := p.iso(Clamp(now.value, issuedAt, expiresAt));
      var a := Attestation(
        attestationId, r.requestId, r.nonceDigest, r.operation, r.scopeDigest, r.payloadDigest,
        attestedAt, r.expiresAt, attestedAt);
      var body := Canonical(AttestationJson(a, report));
      if ByteLength(body) > MAX_RESPONSE_BYTES then Err("RELEASE_VERIFIER_RESPONSE_TOO_LARGE")
      else Ok(Attested(a, report, body))
  }
}
