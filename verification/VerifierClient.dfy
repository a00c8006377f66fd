/** The client half of the release verifier protocol v2: building a request, checking a response. */
module VerifierClient {
  import opened Wrappers
  import opened Unicode
  import opened JsonText
  import opened ReplayStore
  import opened VerifierEnvelope

  predicate ValidToken(token: string)
  {
    32 <= |token| <= 4096 && forall i :: 0 <= i < |token| ==> '!' <= token[i] <= '~'
  }

  predicate CommonScope(p: Platform, v: Json)
  {
    && v.Obj?
    && "projectId" in v.fields && UuidField(v.fields["projectId"])
    && "sourceIdentityHash" in v.fields && HashField(v.fields["sourceIdentityHash"])
    && "targetOrigin" in v.fields && v.fields["targetOrigin"].Str? && ExactOrigin(p, v.fields["targetOrigin"].s)
    && "environment" in v.fields && v.fields["environment"].Str? && v.fields["environment"].s in ENVIRONMENTS
  }

  predicate ValidScope(p: Platform, v: Json, operation: string)
  {
    if !v.Obj? || "operation" !in v.fields || v.fields["operation"] != Str(operation) then false
    else if operation == "readiness" then
      ExactKeys(v, {"deploymentIdentityDigest", "operation"}) && HashField(v.fields["deploymentIdentityDigest"])
    else if !CommonScope(p, v) then false
    else if operation == "candidate" then
      ExactKeys(v, {
        "analysisRunId", "contentHash", "environment", "operation", "projectId", "sourceIdentityHash", "targetOrigin"})
      && UuidField(v.fields["analysisRunId"]) && HashField(v.fields["contentHash"])
    else if operation != "installation" then false
    else
      ExactKeys(v, {
        "environment", "installationOperationId", "operation", "pageUrl", "projectId", "releaseId",
        "selectedHash", "sourceIdentityHash", "targetOrigin"})
      && UuidField(v.fields["releaseId"]) && HashField(v.fields["installationOperationId"])
      && HashField(v.fields["selectedHash"])
      && v.fields["pageUrl"].Str? && ExactPage(p, v.fields["pageUrl"].s, v.fields["targetOrigin"].s)
  }

  datatype Built = Built(request: Request, body: string, context: Context)

  function ContextOf(p: Platform, r: Request): Context
  {
    Context(r.requestId, p.sha256(r.nonce), r.operation, r.scopeDigest, r.payloadDigest, r.issuedAt, r.expiresAt)
  }

  /** `buildLiveVerifierRequest`; `now` is None for an invalid date. */
  function BuildRequest(
    p: Platform, operation: string, scope: Json, payload: Json, now: Option<int>, requestId: string,
    nonceBytes: seq<Byte>): (r: Result<Built, string>)
  {
    if !ValidToken(p.token) || !ValidScope(p, scope, operation) then Err("RELEASE_VERIFIER_REQUEST_INVALID")
    else if now.None? then Err("RELEASE_VERIFIER_TIME_INVALID")
    else if !IsUuidV4(requestId) || |nonceBytes| != 32 then Err("RELEASE_VERIFIER_REQUEST_INVALID")
    else
      var request := Request(
        requestId, Base64Url(nonceBytes), operation,
        p.iso(now.value), p.iso(now.value + REQUEST_LIFETIME_MS),
        scope, p.sha256(Canonical(scope)), payload, p.sha256(Canonical(payload)));
      var body := Canonical(RequestJson(request));
      if ByteLength(body) > MAX_REQUEST_BYTES then Err("RELEASE_VERIFIER_REQUEST_INVALID")
      else Ok(Built(request, body, ContextOf(p, request)))
  }

  // ---- Checking a response ----

  datatype Verified = Verified(report: Json, attestation: Attestation)

  /** A stable error code, or the RangeError of a date that does not exist. */
  datatype Failure = Code(code: string) | RangeError

  function ValidContext(p: Platform, c: Context): Check
  {
    if !(IsUuidV4(c.requestId) && IsHash(c.nonceDigest) && c.operation in OPERATIONS
         && IsHash(c.scopeDigest) && IsHash(c.payloadDigest)) then Fail
    else
      And(ValidTimestamp(p, Str(c.issuedAt)), And(ValidTimestamp(p, Str(c.expiresAt)),
        if 0 < DateOf(p, c.expiresAt) - DateOf(p, c.issuedAt) <= MAX_LIFETIME_MS then Pass else Fail))
  }

  /** `String(v)` is one of the operations: JavaScript prints a one-element array as its element. */
  predicate NamesOperation(v: Json)
  {
    match v
    case Str(s) => s in OPERATIONS
    case Arr(items) => |items| == 1 && NamesOperation(items[0])
    case _ => false
  }

  function CheckAttestation(p: Platform, v: Json): (c: Check)
    ensures c == Pass ==> ExactKeys(v, ATTESTATION_KEYS)
  {
    if !ExactKeys(v, ATTESTATION_KEYS) then Fail
    else
      var f := v.fields;
      if f["schema"] == Str("ReleaseVerifierAttestationV2") && f["protocolVersion"] == Num(2)
        && UuidField(f["attestationId"]) && UuidField(f["requestId"]) && HashField(f["nonceDigest"])
        && NamesOperation(f["operation"]) && HashField(f["scopeDigest"]) && HashField(f["payloadDigest"])
      then
        And(ValidTimestamp(p, f["issuedAt"]), And(ValidTimestamp(p, f["expiresAt"]),
          ValidTimestamp(p, f["attestedAt"])))
      else Fail
  }

  /** The tests on time, in order: None when all pass. */
  function TimelineError(
    now: int, requestIssuedAt: int, requestExpiresAt: int, issuedAt: int, expiresAt: int, attestedAt: int)
    : Option<string>
  {
    if issuedAt > now || attestedAt > now then Some("RELEASE_VERIFIER_RESPONSE_FUTURE")
    else if expiresAt <= now then Some("RELEASE_VERIFIER_RESPONSE_EXPIRED")
    else if requestExpiresAt <= now then Some("RELEASE_VERIFIER_RESPONSE_EXPIRED")
    else if issuedAt < requestIssuedAt || expiresAt > requestExpiresAt
      || expiresAt - issuedAt > MAX_LIFETIME_MS || attestedAt < issuedAt || attestedAt > expiresAt
    then Some("RELEASE_VERIFIER_RESPONSE_TIMELINE_INVALID")
    else None
  }

  predicate EchoesContext(f: map<string, Json>, c: Context)
    requires f.Keys == ATTESTATION_KEYS
  {
    && f["requestId"] == Str(c.requestId) && f["nonceDigest"] == Str(c.nonceDigest)
    && f["operation"] == Str(c.operation) && f["scopeDigest"] == Str(c.scopeDigest)
    && f["payloadDigest"] == Str(c.payloadDigest)
  }

  /** The checks before the replay guard is asked. */
  function ExamineResponse(p: Platform, body: string, signed: bool, c: Context, now: Option<int>)
    : Result<Verified, Failure>
  {
    if !ValidToken(p.token) || ByteLength(body) < 2 || ByteLength(body) > MAX_RESPONSE_BYTES then
      Err(Code("RELEASE_VERIFIER_RESPONSE_INVALID"))
    else if ValidContext(p, c) == Throw then Err(RangeError)
    else if ValidContext(p, c) == Fail then Err(Code("RELEASE_VERIFIER_RESPONSE_INVALID"))
    else if !signed then Err(Code("RELEASE_VERIFIER_RESPONSE_SIGNATURE_INVALID"))
    else
      match ParseCanonical(body)
      case None => Err(Code("RELEASE_VERIFIER_RESPONSE_INVALID"))
      case Some(v) =>
        var check := CheckAttestation(p, v);
        if check == Throw then Err(RangeError)
        else if check == Fail then Err(Code("RELEASE_VERIFIER_RESPONSE_INVALID"))
        else if now.None? then Err(Code("RELEASE_VERIFIER_TIME_INVALID"))
        else
          var f := v.fields;
          var late := TimelineError(now.value, DateOf(p, c.issuedAt), DateOf(p, c.expiresAt),
            DateOf(p, f["issuedAt"].s), DateOf(p, f["expiresAt"].s), DateOf(p, f["attestedAt"].s));
          if late.Some? then Err(Code(late.value))
          else if !EchoesContext(f, c) then Err(Code("RELEASE_VERIFIER_RESPONSE_CONTEXT_MISMATCH"))
          else
            Ok(Verified(f["report"], Attestation(
              f["attestationId"].s, f["requestId"].s, f["nonceDigest"].s, f["operation"].s,
              f["scopeDigest"].s, f["payloadDigest"].s, f["issuedAt"].s, f["expiresAt"].s, f["attestedAt"].s)))
  }

  /** `verifyLiveVerifierResponse`, with the entries its replay guard holds. */
  function VerifyResponse(
    p: Platform, body: string, signed: bool, c: Context, now: Option<int>, held: map<string, int>, max: int)
    : (Result<Verified, Failure>, map<string, int>)
  {
    match ExamineResponse(p, body, signed, c, now)
    case Err(e) => (Err(e), held)
    case Ok(v) =>
      var instant := match now case Some(t) => t case None => 0;
      var a := AdmitKey(held, max, v.attestation.attestationId, DateOf(p, v.attestation.expiresAt), instant);
      (if a.ok then Ok(v) else Err(Code("RELEASE_VERIFIER_RESPONSE_REPLAYED")), a.held)
  }

  method VerifyLiveVerifierResponse(
    p: Platform, body: string, signed: bool, c: Context, now: Option<int>, guard: ReplayGuard)
    returns (result: Result<Verified, Failure>)
    modifies guard.admitted
    ensures (result, guard.admitted.entries)
         == VerifyResponse(p, body, signed, c, now, old(guard.admitted.entries), guard.maxEntries)
  {
    result := ExamineResponse(p, body, signed, c, now);
    if result.Ok? {
      var instant := match now case Some(t) => t case None => 0;
      var a := result.value.attestation;
      var ok := guard.Admit(a.attestationId, DateOf(p, a.expiresAt), instant);
      if !ok {
        result := Err(Code("RELEASE_VERIFIER_RESPONSE_REPLAYED"));
      }
    }
  }
}
