/** What one call of each half guarantees about the other: what a body is, when it is accepted, and at what times. */
module VerifierCalls {
  import opened Wrappers
  import opened Unicode
  import opened Decimal
  import opened JsonText
  import opened JsonRoundTrip
  import opened ReplayFile
  import opened ReplayStore
  import opened VerifierEnvelope
  import Server = VerifierServer
  import Client = VerifierClient
  import UriComponent

  /** On the three operations both halves accept the same scopes; the client accepts no other operation. */
  lemma ScopesAgree(p: Platform, scope: Json, operation: string)
    ensures Client.ValidScope(p, scope, operation)
       <==> operation in OPERATIONS && Server.ValidScope(p, scope, operation)
  {
  }

  // ---- Requests ----

  function AcceptedOf(p: Platform, q: Request): Server.Accepted
  {
    Server.Accepted(q.requestId, p.sha256(q.nonce), q.operation, q.scope, q.payload,
      q.scopeDigest, q.payloadDigest, q.issuedAt, q.expiresAt)
  }

  /** An admitted body that is a request's canonical text is admitted as that request. */
  lemma AdmittedAsSent(
    p: Platform, q: Request, operation: string, authorization: Option<string>, signed: bool, now: Option<int>)
    requires Server.Examine(p, operation, Canonical(RequestJson(q)), authorization, signed, now).Admitted?
    ensures Server.Examine(p, operation, Canonical(RequestJson(q)), authorization, signed, now).request
         == AcceptedOf(p, q)
    ensures now.Some? && DateOf(p, q.issuedAt) <= now.value < DateOf(p, q.expiresAt)
    ensures DateOf(p, q.expiresAt) - DateOf(p, q.issuedAt) <= MAX_LIFETIME_MS
    ensures ValidTimestamp(p, Str(q.issuedAt)) == Pass && ValidTimestamp(p, Str(q.expiresAt)) == Pass
    ensures signed && authorization == Some("Bearer " + p.token) && operation == q.operation
    ensures IsUuidV4(q.requestId) && IsNonce(q.nonce)
    ensures q.scopeDigest == p.sha256(Canonical(q.scope)) && q.payloadDigest == p.sha256(Canonical(q.payload))
    ensures ByteLength(Canonical(RequestJson(q))) <= MAX_REQUEST_BYTES && Server.ValidScope(p, q.scope, q.operation)
  {
    hide Canonical, Parse, RequestJson;
    CanonicalExactly(Canonical(RequestJson(q)), RequestJson(q));
    RequestFields(q);
    assert authorization.value[..7] == "Bearer ";
    assert authorization.value == authorization.value[..7] + authorization.value[7..];
  }

  /** The two envelopes cannot be confused: what the server signs is never admitted as a request. */
  lemma AttestationNotAdmitted(
    p: Platform, a: Attestation, report: Json, operation: string, authorization: Option<string>, signed: bool,
    now: Option<int>)
    ensures !Server.Examine(p, operation, Canonical(AttestationJson(a, report)), authorization, signed, now).Admitted?
  {
    hide Canonical, Parse, AttestationJson;
    CanonicalExactly(Canonical(AttestationJson(a, report)), AttestationJson(a, report));
    AttestationFields(a, report);
    assert "report" in ATTESTATION_KEYS && "report" !in REQUEST_KEYS;
  }

  /** And what the client signs is never taken for a response. */
  lemma RequestNotResponse(p: Platform, q: Request, signed: bool, c: Context, now: Option<int>)
    ensures Client.ExamineResponse(p, Canonical(RequestJson(q)), signed, c, now).Err?
  {
    hide Canonical, Parse, RequestJson;
    CanonicalExactly(Canonical(RequestJson(q)), RequestJson(q));
    RequestFields(q);
    assert "nonce" in REQUEST_KEYS && "nonce" !in ATTESTATION_KEYS;
  }

  /** A time the client can build a request at: both its timestamps have a four-digit year. */
  predicate Printable(at: int)
  {
    FourDigitYear(at) && FourDigitYear(at + REQUEST_LIFETIME_MS)
  }

  lemma BuiltEnvelopePasses(
    p: Platform, operation: string, scope: Json, payload: Json, at: int, requestId: string, nonceBytes: seq<Byte>)
    requires Sound(p) && Printable(at)
    requires Client.BuildRequest(p, operation, scope, payload, Some(at), requestId, nonceBytes).Ok?
    ensures var q := Client.BuildRequest(p, operation, scope, payload, Some(at), requestId, nonceBytes).value.request;
      Server.CheckEnvelope(p, RequestJson(q), operation) == Pass
  {
    hide Canonical, RequestJson;
    var q := Client.BuildRequest(p, operation, scope, payload, Some(at), requestId, nonceBytes).value.request;
    RequestFields(q);
    ScopesAgree(p, scope, operation);
    PrintedTimestampValid(p, at);
    PrintedTimestampValid(p, at + REQUEST_LIFETIME_MS);
  }

  lemma BuiltFields(
    p: Platform, operation: string, scope: Json, payload: Json, at: int, requestId: string, nonceBytes: seq<Byte>)
    requires Client.BuildRequest(p, operation, scope, payload, Some(at), requestId, nonceBytes).Ok?
    ensures var built := Client.BuildRequest(p, operation, scope, payload, Some(at), requestId, nonceBytes).value;
      && IsUuidV4(requestId) && built.request.requestId == requestId
      && built.request.operation == operation && built.request.scope == scope && built.request.payload == payload
      && built.request.issuedAt == p.iso(at) && built.request.expiresAt == p.iso(at + REQUEST_LIFETIME_MS)
      && built.request.scopeDigest == p.sha256(Canonical(scope))
      && built.request.payloadDigest == p.sha256(Canonical(payload))
      && built.body == Canonical(RequestJson(built.request)) && ByteLength(built.body) <= MAX_REQUEST_BYTES
      && built.context == Client.ContextOf(p, built.request)
      && built.context.nonceDigest == p.sha256(built.request.nonce)
      && Client.ValidToken(p.token)
  {
    hide Canonical, RequestJson, Client.ValidScope, Base64Url, ByteLength;
  }

  /** What the server's checks say, at any time, of a request the client built. */
  lemma BuiltRequestExamined(
    p: Platform, operation: string, scope: Json, payload: Json, at: int, requestId: string, nonceBytes: seq<Byte>,
    now: int)
    requires Sound(p) && Printable(at)
    requires Client.BuildRequest(p, operation, scope, payload, Some(at), requestId, nonceBytes).Ok?
    ensures var built := Client.BuildRequest(p, operation, scope, payload, Some(at), requestId, nonceBytes).value;
      Server.Examine(p, operation, built.body, Some("Bearer " + p.token), true, Some(now))
      == if now < at then Server.Invalid("RELEASE_VERIFIER_REQUEST_FUTURE")
         else if at + REQUEST_LIFETIME_MS <= now then Server.Invalid("RELEASE_VERIFIER_REQUEST_EXPIRED")
         else Server.Admitted(AcceptedOf(p, built.request))
  {
    hide Client.BuildRequest, Canonical, Parse, RequestJson, Server.CheckEnvelope, ByteLength, IsTimestamp;
    BuiltFields(p, operation, scope, payload, at, requestId, nonceBytes);
    var built := Client.BuildRequest(p, operation, scope, payload, Some(at), requestId, nonceBytes).value;
    BuiltEnvelopePasses(p, operation, scope, payload, at, requestId, nonceBytes);
    CanonicalExactly(built.body, RequestJson(built.request));
    RequestFields(built.request);
    PrintedTimestampValid(p, at);
    PrintedTimestampValid(p, at + REQUEST_LIFETIME_MS);
    assert ("Bearer " + p.token)[..7] == "Bearer " && ("Bearer " + p.token)[7..] == p.token;
  }

  // ---- Admission of the two keys ----

  lemma KeysFit(p: Platform, requestId: string, nonce: string, expiresAt: int)
    requires Sound(p) && IsUuidV4(requestId) && FourDigitYear(expiresAt) && 0 <= expiresAt
    ensures KeyOk(Server.RequestKey(requestId)) && KeyOk(Server.NonceKey(p.sha256(nonce)))
    ensures Server.RequestKey(requestId) != Server.NonceKey(p.sha256(nonce))
    ensures ByteLength(Line(Entry(Server.RequestKey(requestId), expiresAt))) <= MAX_LINE_BYTES
    ensures ByteLength(Line(Entry(Server.NonceKey(p.sha256(nonce)), expiresAt))) <= MAX_LINE_BYTES
    ensures expiresAt < Pow10(15)
  {
    hide Line, ByteLength, KeyOk, Pow10;
    assert IsHash(p.sha256(nonce));
    TenToFifteen();
    ShortKey("request:" + requestId, expiresAt);
    ShortKey("nonce:" + p.sha256(nonce), expiresAt);
    assert Server.RequestKey(requestId)[0] != Server.NonceKey(p.sha256(nonce))[0];
  }

  lemma TenToFifteen()
    ensures Pow10(15) == 1000000000000000
  {
    assert Pow10(5) == 100000;
    assert Pow10(10) == 10 * Pow10(9) == 100 * Pow10(8) == 1000 * Pow10(7) == 10000 * Pow10(6) == 100000 * Pow10(5);
    assert Pow10(15) == 10 * Pow10(14) == 100 * Pow10(13) == 1000 * Pow10(12) == 10000 * Pow10(11)
                     == 100000 * Pow10(10);
  }

  /** An ASCII key of at most 79 characters makes a line that fits, whatever its expiry. */
  lemma ShortKey(key: string, expiresAt: int)
    requires Ascii(key) && 1 <= |key| <= 79 && 0 <= expiresAt < Pow10(15)
    ensures KeyOk(key)
    ensures ByteLength(Line(Entry(key, expiresAt))) <= MAX_LINE_BYTES
  {
    hide UriComponent.Encode, Digits, Pow10;
    AsciiLengths(key);
    UriComponent.EncodePlain(key);
    EncodedLength(key);
    DigitsBound(expiresAt, 15);
    AsciiLengths(Line(Entry(key, expiresAt)));
  }

  lemma {:induction false} EncodedLength(key: string)
    requires Ascii(key)
    ensures |UriComponent.Encode(key)| <= 3 * |key|
  {
    if key != "" {
      EncodedLength(key[1..]);
      UriComponent.PercentAllPlain(BytesOf(key[0]));
    }
  }

  /** Two distinct keys are both admitted exactly when neither is unexpired, two fit, and both lines are flushed. */
  lemma BothKeysAdmitted(
    d: Durable, max: int, open: bool, requestId: string, nonceDigest: string, expiresAt: int, now: int,
    w1: Write, w2: Write)
    requires var k1, k2 := Server.RequestKey(requestId), Server.NonceKey(nonceDigest);
      && KeyOk(k1) && KeyOk(k2) && k1 != k2
      && ByteLength(Line(Entry(k1, expiresAt))) <= MAX_LINE_BYTES
      && ByteLength(Line(Entry(k2, expiresAt))) <= MAX_LINE_BYTES
    requires now < expiresAt
    ensures var live := Live(d.held, now);
      Server.AdmitKeys(d, max, open, requestId, nonceDigest, expiresAt, now, w1, w2).0
      <==> && open && w1 == Flushed && w2 == Flushed && |live| + 2 <= max
           && Server.RequestKey(requestId) !in live && Server.NonceKey(nonceDigest) !in live
  {
    var k1, k2 := Server.RequestKey(requestId), Server.NonceKey(nonceDigest);
    var live := Live(d.held, now);
    var held := live[k1 := expiresAt];
    if k1 !in live {
      assert Live(held, now) == held;
      assert |held| == |live| + 1;
    }
  }

  /** A request that passes the checks is accepted when both its keys are admitted. */
  lemma AcceptedByKeys(
    p: Platform, operation: string, body: string, authorization: Option<string>, now: int,
    d: Durable, max: int, open: bool, w1: Write, w2: Write)
    ensures var e := Server.Examine(p, operation, body, authorization, true, Some(now));
      Server.VerifyRequest(p, operation, body, authorization, true, Some(now), d, max, open, w1, w2).0.Admitted?
      <==> && e.Admitted?
           && Server.AdmitKeys(d, max, open, e.request.requestId, e.request.nonceDigest,
                DateOf(p, e.request.expiresAt), now, w1, w2).0
  {
    hide Server.Examine, Server.AdmitKeys;
  }

  /**
   Completeness: a request the client built is accepted exactly in its window, when both its keys are fresh, the
   store has room for two and both writes succeed.
   */
  lemma BuiltRequestAccepted(
    p: Platform, operation: string, scope: Json, payload: Json, at: int, requestId: string, nonceBytes: seq<Byte>,
    now: int, d: Durable, max: int, open: bool, w1: Write, w2: Write)
    requires Sound(p) && Printable(at) && 0 <= at + REQUEST_LIFETIME_MS
    requires Client.BuildRequest(p, operation, scope, payload, Some(at), requestId, nonceBytes).Ok?
    ensures var built := Client.BuildRequest(p, operation, scope, payload, Some(at), requestId, nonceBytes).value;
      var live := Live(d.held, now);
      Server.VerifyRequest(
        p, operation, built.body, Some("Bearer " + p.token), true, Some(now), d, max, open, w1, w2).0.Admitted?
      <==> && at <= now < at + REQUEST_LIFETIME_MS
           && Server.RequestKey(requestId) !in live && Server.NonceKey(built.context.nonceDigest) !in live
           && |live| + 2 <= max && open && w1 == Flushed && w2 == Flushed
  {
    hide Client.BuildRequest, Canonical, RequestJson, Server.Examine, Server.AdmitKeys, Server.RequestKey;
    hide Server.NonceKey, KeyOk, Line, ByteLength, IsUuidV4, IsTimestamp, Server.VerifyRequest;
    AcceptedByKeys(p, operation,
      Client.BuildRequest(p, operation, scope, payload, Some(at), requestId, nonceBytes).value.body,
      Some("Bearer " + p.token), now, d, max, open, w1, w2);
    BuiltRequestExamined(p, operation, scope, payload, at, requestId, nonceBytes, now);
    BuiltFields(p, operation, scope, payload, at, requestId, nonceBytes);
    var built := Client.BuildRequest(p, operation, scope, payload, Some(at), requestId, nonceBytes).value;
    if at <= now < at + REQUEST_LIFETIME_MS {
      var expiresAt := at + REQUEST_LIFETIME_MS;
      PrintedTimestampValid(p, expiresAt);
      KeysFit(p, requestId, built.request.nonce, expiresAt);
      BothKeysAdmitted(d, max, open, requestId, built.context.nonceDigest, expiresAt, now, w1, w2);
    }
  }

  // ---- Attestations ----

  /** The attestation window never closes on an accepted request, and the client accepts it from then to the expiry. */
  lemma TimelineExact(issuedAt: int, expiresAt: int, serverNow: int, clientNow: int)
    requires issuedAt < expiresAt <= issuedAt + MAX_LIFETIME_MS
    ensures var clamped := Server.Clamp(serverNow, issuedAt, expiresAt);
      && issuedAt <= clamped <= expiresAt - 1
      && Client.TimelineError(clientNow, issuedAt, expiresAt, clamped, expiresAt, clamped)
         == if clientNow < clamped then Some("RELEASE_VERIFIER_RESPONSE_FUTURE")
            else if expiresAt <= clientNow then Some("RELEASE_VERIFIER_RESPONSE_EXPIRED")
            else None
  {
  }

  /** At any time the server can attest a request with a window, and does it inside the window. */
  lemma AttestationInWindow(p: Platform, r: Server.Accepted, report: Json, now: int, id: string)
    requires Sound(p) && DateOf(p, r.issuedAt) < DateOf(p, r.expiresAt)
    requires FourDigitYear(DateOf(p, r.issuedAt)) && FourDigitYear(DateOf(p, r.expiresAt))
    ensures Server.BuildAttestation(p, r, report, Some(now), id) != Err("RELEASE_VERIFIER_ATTESTATION_WINDOW_CLOSED")
    ensures Server.BuildAttestation(p, r, report, Some(now), id).Ok? ==>
      var a := Server.BuildAttestation(p, r, report, Some(now), id).value.attestation;
      && DateOf(p, a.attestedAt) == Server.Clamp(now, DateOf(p, r.issuedAt), DateOf(p, r.expiresAt))
      && DateOf(p, r.issuedAt) <= DateOf(p, a.attestedAt) < DateOf(p, r.expiresAt)
  {
    PrintedTimestampValid(p, Server.Clamp(now, DateOf(p, r.issuedAt), DateOf(p, r.expiresAt)));
    hide Sound, ByteLength, AttestationJson, Canonical, IsUuidV4;
  }

  /** A response that passes the client's checks and is an attestation's text is that attestation, for that context. */
  lemma ResponseAsAttested(p: Platform, a: Attestation, report: Json, signed: bool, c: Context, now: Option<int>)
    requires Client.ExamineResponse(p, Canonical(AttestationJson(a, report)), signed, c, now).Ok?
    ensures Client.ExamineResponse(p, Canonical(AttestationJson(a, report)), signed, c, now).value
         == Client.Verified(report, a)
    ensures a.requestId == c.requestId && a.nonceDigest == c.nonceDigest && a.operation == c.operation
    ensures a.scopeDigest == c.scopeDigest && a.payloadDigest == c.payloadDigest
    ensures signed && now.Some? && DateOf(p, a.attestedAt) <= now.value < DateOf(p, a.expiresAt)
    ensures now.value < DateOf(p, c.expiresAt)
    ensures 2 <= ByteLength(Canonical(AttestationJson(a, report))) <= MAX_RESPONSE_BYTES
    ensures Client.ValidContext(p, c) == Pass && Client.ValidToken(p.token)
  {
    hide Canonical, Parse, AttestationJson;
    CanonicalExactly(Canonical(AttestationJson(a, report)), AttestationJson(a, report));
    AttestationFields(a, report);
  }

  lemma AttestationPasses(p: Platform, a: Attestation, report: Json)
    requires IsUuidV4(a.attestationId) && IsUuidV4(a.requestId) && IsHash(a.nonceDigest)
    requires a.operation in OPERATIONS && IsHash(a.scopeDigest) && IsHash(a.payloadDigest)
    requires ValidTimestamp(p, Str(a.issuedAt)) == Pass && ValidTimestamp(p, Str(a.expiresAt)) == Pass
    requires ValidTimestamp(p, Str(a.attestedAt)) == Pass
    ensures Client.CheckAttestation(p, AttestationJson(a, report)) == Pass
  {
    AttestationFields(a, report);
    hide AttestationJson, IsUuidV4, IsHash, ValidTimestamp;
  }

  /**
   Every attestation the server builds for a request is answered by the client, for the context of that request,
   by time alone: accepted from the clamped instant until the expiry.
   */
  lemma AttestationAccepted(
    p: Platform, q: Request, report: Json, serverNow: int, attestationId: string, clientNow: int)
    requires Sound(p) && Client.ValidToken(p.token)
    requires Client.ValidContext(p, Client.ContextOf(p, q)) == Pass
    requires Server.BuildAttestation(p, AcceptedOf(p, q), report, Some(serverNow), attestationId).Ok?
    ensures var built := Server.BuildAttestation(p, AcceptedOf(p, q), report, Some(serverNow), attestationId).value;
      var clamped := Server.Clamp(serverNow, DateOf(p, q.issuedAt), DateOf(p, q.expiresAt));
      Client.ExamineResponse(p, built.body, true, Client.ContextOf(p, q), Some(clientNow))
      == if clientNow < clamped then Err(Client.Code("RELEASE_VERIFIER_RESPONSE_FUTURE"))
         else if DateOf(p, q.expiresAt) <= clientNow then Err(Client.Code("RELEASE_VERIFIER_RESPONSE_EXPIRED"))
         else Ok(Client.Verified(report, built.attestation))
  {
    hide Canonical, Parse, AttestationJson, Client.CheckAttestation, IsUuidV4, IsHash, IsTimestamp, ByteLength;
    hide Client.ValidToken;
    var built := Server.BuildAttestation(p, AcceptedOf(p, q), report, Some(serverNow), attestationId).value;
    var a := built.attestation;
    var issuedAt, expiresAt := DateOf(p, q.issuedAt), DateOf(p, q.expiresAt);
    var clamped := Server.Clamp(serverNow, issuedAt, expiresAt);
    TimelineExact(issuedAt, expiresAt, serverNow, clientNow);
    PrintedTimestampValid(p, clamped);
    AttestationPasses(p, a, report);
    AttestationFields(a, report);
    CanonicalLength(AttestationJson(a, report));
    CanonicalExactly(built.body, AttestationJson(a, report));
  }

  lemma BuiltContextValid(
    p: Platform, operation: string, scope: Json, payload: Json, at: int, requestId: string, nonceBytes: seq<Byte>)
    requires Sound(p) && Printable(at)
    requires Client.BuildRequest(p, operation, scope, payload, Some(at), requestId, nonceBytes).Ok?
    ensures var built := Client.BuildRequest(p, operation, scope, payload, Some(at), requestId, nonceBytes).value;
      && built.context == Client.ContextOf(p, built.request)
      && Client.ValidContext(p, built.context) == Pass && Client.ValidToken(p.token)
      && DateOf(p, built.request.issuedAt) == at
      && DateOf(p, built.request.expiresAt) == at + REQUEST_LIFETIME_MS
  {
    assert Client.ValidScope(p, scope, operation);
    hide Client.BuildRequest, Canonical, RequestJson, IsUuidV4, IsTimestamp, IsHash, ByteLength, Client.ValidScope;
    ScopesAgree(p, scope, operation);
    BuiltFields(p, operation, scope, payload, at, requestId, nonceBytes);
    PrintedTimestampValid(p, at);
    PrintedTimestampValid(p, at + REQUEST_LIFETIME_MS);
  }

  /**
   End to end: whatever the three clocks read, an attestation the server signs for a request the client built passes
   the client's checks exactly from the attested instant until sixty seconds after the request.
   */
  lemma BuiltRequestAnswered(
    p: Platform, operation: string, scope: Json, payload: Json, at: int, requestId: string, nonceBytes: seq<Byte>,
    report: Json, serverNow: int, attestationId: string, clientNow: int)
    requires Sound(p) && Printable(at)
    requires Client.BuildRequest(p, operation, scope, payload, Some(at), requestId, nonceBytes).Ok?
    requires var built := Client.BuildRequest(p, operation, scope, payload, Some(at), requestId, nonceBytes).value;
      Server.BuildAttestation(p, AcceptedOf(p, built.request), report, Some(serverNow), attestationId).Ok?
    ensures var built := Client.BuildRequest(p, operation, scope, payload, Some(at), requestId, nonceBytes).value;
      var attested := Server.BuildAttestation(
        p, AcceptedOf(p, built.request), report, Some(serverNow), attestationId).value;
      Client.ExamineResponse(p, attested.body, true, built.context, Some(clientNow))
      == if clientNow < Server.Clamp(serverNow, at, at + REQUEST_LIFETIME_MS) then
           Err(Client.Code("RELEASE_VERIFIER_RESPONSE_FUTURE"))
         else if at + REQUEST_LIFETIME_MS <= clientNow then Err(Client.Code("RELEASE_VERIFIER_RESPONSE_EXPIRED"))
         else Ok(Client.Verified(report, attested.attestation))
  {
    hide Client.BuildRequest, Client.ExamineResponse, Client.ValidContext, Server.BuildAttestation, AcceptedOf;
    hide Client.ValidToken, Client.ContextOf;
    var built := Client.BuildRequest(p, operation, scope, payload, Some(at), requestId, nonceBytes).value;
    BuiltContextValid(p, operation, scope, payload, at, requestId, nonceBytes);
    AttestationAccepted(p, built.request, report, serverNow, attestationId, clientNow);
  }

  lemma CanonicalLength(v: Json)
    requires v.Obj?
    ensures ByteLength(Canonical(v)) >= 2
  {
    var s := Canonical(v);
    var inner := EncodeMembers(Sorting.SortedKeys, v, Sorting.SortedKeys(v.fields.Keys));
    assert s == "{" + inner + "}";
    ByteLengthConcat("{" + inner, "}");
    ByteLengthConcat("{", inner);
  }
}
