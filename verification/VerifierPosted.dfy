/** What becomes of a request that the client built: by the path it is posted to, and beside another such request. */
module VerifierPosted {
  import opened Wrappers
  import opened Unicode
  import opened JsonText
  import opened ReplayFile
  import opened ReplayStore
  import opened VerifierEnvelope
  import opened VerifierCalls
  import opened VerifierHandler
  import opened VerifierExact
  import JsonRoundTrip
  import Server = VerifierServer
  import Client = VerifierClient

  /** What a client asks for, and when: enough to build a request. */
  datatype Wish = Wish(operation: string, scope: Json, payload: Json, at: int, requestId: string, nonceBytes: seq<Byte>)

  function Build(p: Platform, w: Wish): Result<Client.Built, string>
  {
    Client.BuildRequest(p, w.operation, w.scope, w.payload, Some(w.at), w.requestId, w.nonceBytes)
  }

  /** It can be built, at a time that can be printed and that is not before 1970. */
  ghost predicate Buildable(p: Platform, w: Wish)
  {
    Sound(p) && Printable(w.at) && 0 <= w.at + REQUEST_LIFETIME_MS && Build(p, w).Ok?
  }

  // ---- Two requests ----

  function Verdict(p: Platform, w: Wish, now: int, d: Durable, max: int): (Server.Verdict, Durable)
    requires Build(p, w).Ok?
  {
    Server.VerifyRequest(p, w.operation, Build(p, w).value.body, Some("Bearer " + p.token), true, Some(now), d, max,
      true, Flushed, Flushed)
  }

  /** The nonce of a request stands for the bytes it was built from. */
  lemma NonceOfBytes(p: Platform, w: Wish)
    requires Build(p, w).Ok?
    ensures FromBase64Url(Build(p, w).value.request.nonce) == Some(w.nonceBytes)
    ensures Build(p, w).value.context.nonceDigest == p.sha256(Build(p, w).value.request.nonce)
    ensures Build(p, w).value.request.requestId == w.requestId
  {
    hide Canonical, RequestJson, Client.ValidScope, ByteLength, FromBase64Url, Base64Url;
    Base64UrlRoundTrip(w.nonceBytes);
  }

  /** Requests built from different identifiers and bytes have four different keys, unless their nonces collide. */
  lemma KeysDiffer(p: Platform, v: Wish, w: Wish)
    requires Buildable(p, v) && Buildable(p, w) && v.requestId != w.requestId && v.nonceBytes != w.nonceBytes
    requires var n, m := Build(p, v).value.request.nonce, Build(p, w).value.request.nonce;
      p.sha256(n) == p.sha256(m) ==> n == m
    ensures var r, s := Server.RequestKey(v.requestId), Server.RequestKey(w.requestId);
      var n := Server.NonceKey(Build(p, v).value.context.nonceDigest);
      var m := Server.NonceKey(Build(p, w).value.context.nonceDigest);
      && r != s && r != m && n != s && n != m
  {
    hide Build, FromBase64Url, Sound;
    NonceOfBytes(p, v);
    NonceOfBytes(p, w);
    var n, m := Build(p, v).value.context.nonceDigest, Build(p, w).value.context.nonceDigest;
    assert Server.RequestKey(v.requestId)[8..] == v.requestId && Server.RequestKey(w.requestId)[8..] == w.requestId;
    assert Server.NonceKey(n)[6..] == n && Server.NonceKey(m)[6..] == m;
    assert Server.NonceKey(n)[0] == 'n' && Server.NonceKey(m)[0] == 'n';
    assert Server.RequestKey(v.requestId)[0] == 'r' && Server.RequestKey(w.requestId)[0] == 'r';
  }

  /** What an accepted request leaves in the store. */
  lemma AcceptedHolds(p: Platform, w: Wish, now: int, d: Durable, max: int)
    requires Buildable(p, w) && Verdict(p, w, now, d, max).0.Admitted?
    ensures var k1 := Server.RequestKey(w.requestId);
      var k2 := Server.NonceKey(Build(p, w).value.context.nonceDigest);
      var expiresAt := w.at + REQUEST_LIFETIME_MS;
      && k1 != k2 && w.at <= now < expiresAt && k1 !in Live(d.held, now) && k2 !in Live(d.held, now)
      && Verdict(p, w, now, d, max).1.held == Live(d.held, now)[k1 := expiresAt][k2 := expiresAt]
  {
    hide Client.BuildRequest, Canonical, RequestJson, Server.Examine, Server.RequestKey, Server.NonceKey, KeyOk, Line,
      ByteLength, IsUuidV4, IsTimestamp, AdmitDurable;
    var built, expiresAt := Build(p, w).value, w.at + REQUEST_LIFETIME_MS;
    BuiltFields(p, w.operation, w.scope, w.payload, w.at, w.requestId, w.nonceBytes);
    BuiltRequestAccepted(p, w.operation, w.scope, w.payload, w.at, w.requestId, w.nonceBytes, now, d, max, true,
      Flushed, Flushed);
    BuiltRequestExamined(p, w.operation, w.scope, w.payload, w.at, w.requestId, w.nonceBytes, now);
    PrintedTimestampValid(p, expiresAt);
    KeysFit(p, w.requestId, built.request.nonce, expiresAt);
    HeldAfterBoth(d, max, w.requestId, built.context.nonceDigest, expiresAt, now);
  }

  lemma HeldAfterBoth(d: Durable, max: int, requestId: string, nonceDigest: string, expiresAt: int, now: int)
    requires KeyOk(Server.RequestKey(requestId)) && KeyOk(Server.NonceKey(nonceDigest)) && now < expiresAt
    requires Server.RequestKey(requestId) != Server.NonceKey(nonceDigest)
    requires Server.AdmitKeys(d, max, true, requestId, nonceDigest, expiresAt, now, Flushed, Flushed).0
    ensures Server.AdmitKeys(d, max, true, requestId, nonceDigest, expiresAt, now, Flushed, Flushed).1.held
         == Live(d.held, now)[Server.RequestKey(requestId) := expiresAt][Server.NonceKey(nonceDigest) := expiresAt]
  {
    hide KeyOk, Line, ByteLength;
    var held := Live(d.held, now)[Server.RequestKey(requestId) := expiresAt];
    assert Live(held, now) == held;
  }

  lemma RoomLater(m: map<string, int>, k1: string, k2: string, expiresAt: int, now: int, later: int)
    requires k1 != k2 && k1 !in Live(m, now) && k2 !in Live(m, now) && now <= later
    ensures var held := Live(m, now)[k1 := expiresAt][k2 := expiresAt];
      && Live(held, later).Keys == Live(m, later).Keys + (if later < expiresAt then {k1, k2} else {})
      && |Live(held, later)| == |Live(m, later)| + (if later < expiresAt then 2 else 0)
  {
    var held := Live(m, now)[k1 := expiresAt][k2 := expiresAt];
    var added := if later < expiresAt then {k1, k2} else {};
    assert Live(held, later).Keys == Live(m, later).Keys + added;
    assert |Live(held, later)| == |Live(held, later).Keys| && |Live(m, later)| == |Live(m, later).Keys|;
    assert |{k1, k2}| == 2;
  }

  /**
   After one built request was accepted, another one, from another identifier and other bytes, is accepted exactly in
   its own window, with its own keys fresh and room for two beside what is held: the first is never in its way.
   */
  lemma SecondAccepted(p: Platform, v: Wish, w: Wish, now: int, later: int, d: Durable, max: int)
    requires Buildable(p, v) && Buildable(p, w) && v.requestId != w.requestId && v.nonceBytes != w.nonceBytes
    requires var n, m := Build(p, v).value.request.nonce, Build(p, w).value.request.nonce;
      p.sha256(n) == p.sha256(m) ==> n == m
    requires Verdict(p, v, now, d, max).0.Admitted? && now <= later
    ensures var live := Live(d.held, later);
      Verdict(p, w, later, Verdict(p, v, now, d, max).1, max).0.Admitted? <==>
      && w.at <= later < w.at + 60000
      && "request:" + w.requestId !in live && "nonce:" + p.sha256(Base64Url(w.nonceBytes)) !in live
      && |live| + (if later < v.at + 60000 then 4 else 2) <= max
  {
    hide Client.BuildRequest, Sound, Server.VerifyRequest, Live, Base64Url;
    KeysDiffer(p, v, w);
    AcceptedHolds(p, v, now, d, max);
    NonceText(p, w);
    var d' := Verdict(p, v, now, d, max).1;
    RoomLater(d.held, Server.RequestKey(v.requestId), Server.NonceKey(Build(p, v).value.context.nonceDigest),
      v.at + REQUEST_LIFETIME_MS, now, later);
    BuiltRequestAccepted(p, w.operation, w.scope, w.payload, w.at, w.requestId, w.nonceBytes, later, d', max, true,
      Flushed, Flushed);
  }

  lemma NonceText(p: Platform, w: Wish)
    requires Build(p, w).Ok?
    ensures Build(p, w).value.context.nonceDigest == p.sha256(Base64Url(w.nonceBytes))
  {
    hide Canonical, RequestJson, Client.ValidScope, ByteLength, Base64Url;
  }

  // ---- By path ----

  const PATHS := {"/v2/readiness", "/v2/candidates/verify", "/v2/installations/verify"}

  predicate IsPathOf(path: string, operation: string)
  {
    || (path == "/v2/readiness" && operation == "readiness")
    || (path == "/v2/candidates/verify" && operation == "candidate")
    || (path == "/v2/installations/verify" && operation == "installation")
  }

  /** The text of a member, which is there in every scope that is asked for it. */
  function TextOf(v: Json, key: string): string
  {
    if v.Obj? && key in v.fields && v.fields[key].Str? then v.fields[key].s else ""
  }

  /** An attested report: the context of the request, and the instant of the attestation moved into its window. */
  function Attesting(p: Platform, w: Wish, report: Json, later: int, attestationId: string): Response
  {
    var instant := if later < w.at then w.at else if later < w.at + 60000 then later else w.at + 59999;
    var body := Canonical(AttestationJson(Attestation(attestationId, w.requestId, p.sha256(Base64Url(w.nonceBytes)),
      w.operation, p.sha256(Canonical(w.scope)), p.sha256(Canonical(w.payload)), p.iso(instant), p.iso(w.at + 60000),
      p.iso(instant)), report));
    if IsUuidV4(attestationId) && ByteLength(body) <= 65536 then Answer(body)
    else Failed(500, "RELEASE_VERIFIER_ATTESTATION_FAILED")
  }

  /** What an accepted request is answered with. */
  function Answering(p: Platform, c: Server.Config, w: Wish, call: Call): Response
  {
    if w.operation == "readiness" then
      if c.acceptedDeployments != [] && TextOf(w.scope, "deploymentIdentityDigest") !in c.acceptedDeployments then
        Failed(422, "RELEASE_VERIFIER_DEPLOYMENT_IDENTITY_UNKNOWN")
      else
        Attesting(p, w, Obj(map["protocolVersion" := Num(2), "mode" := Str(c.mode),
          "webMcpImplementation" := Str("native")]), call.later, call.attestationId)
    else if TextOf(w.scope, "targetOrigin") !in c.allowedOrigins then
      Failed(422, "RELEASE_VERIFIER_TARGET_ORIGIN_FORBIDDEN")
    else
      match call.observed
      case Returned(Report(report)) => Attesting(p, w, report, call.later, call.attestationId)
      case Returned(Refused(code)) => Failed(422, code)
      case TimedOut => Failed(422, "RELEASE_VERIFIER_DEADLINE_EXCEEDED")
      case Threw => Failed(422, "RELEASE_VERIFIER_VERIFICATION_FAILED")
  }

  lemma OtherOperation(p: Platform, w: Wish, operation: string, now: int)
    requires Build(p, w).Ok? && operation != w.operation
    ensures Server.Examine(p, operation, Build(p, w).value.body, Some("Bearer " + p.token), true, Some(now))
         == Server.Rejected(400, "RELEASE_VERIFIER_REQUEST_INVALID")
  {
    hide Client.BuildRequest, Canonical, Parse, RequestJson, ByteLength, Server.ValidScope, IsUuidV4, ValidTimestamp;
    BuiltFields(p, w.operation, w.scope, w.payload, w.at, w.requestId, w.nonceBytes);
    var q := Build(p, w).value.request;
    JsonRoundTrip.CanonicalExactly(Build(p, w).value.body, RequestJson(q));
    RequestFields(q);
    assert ("Bearer " + p.token)[..7] == "Bearer " && ("Bearer " + p.token)[7..] == p.token;
  }

  lemma AttestsAs(p: Platform, w: Wish, report: Json, later: int, attestationId: string)
    requires Buildable(p, w)
    ensures Attesting(p, w, report, later, attestationId) ==
      match Server.BuildAttestation(p, AcceptedOf(p, Build(p, w).value.request), report, Some(later), attestationId)
      case Err(_) => Failed(500, "RELEASE_VERIFIER_ATTESTATION_FAILED")
      case Ok(a) => Answer(a.body)
  {
    hide Client.BuildRequest, Canonical, AttestationJson, ByteLength, IsUuidV4, IsTimestamp, Base64Url;
    BuiltFields(p, w.operation, w.scope, w.payload, w.at, w.requestId, w.nonceBytes);
    NonceText(p, w);
    PrintedTimestampValid(p, w.at);
    PrintedTimestampValid(p, w.at + REQUEST_LIFETIME_MS);
  }

  lemma AnswersAs(p: Platform, c: Server.Config, w: Wish, call: Call)
    requires Buildable(p, w)
    ensures Answered(p, c, call, AcceptedOf(p, Build(p, w).value.request)) == Answering(p, c, w, call)
  {
    hide Client.BuildRequest, Canonical, Base64Url, Sound, Server.BuildAttestation, Attesting, ByteLength;
    BuiltFields(p, w.operation, w.scope, w.payload, w.at, w.requestId, w.nonceBytes);
    BuiltScope(p, w);
    forall report: Json
      ensures Attesting(p, w, report, call.later, call.attestationId) ==
        match Server.BuildAttestation(
          p, AcceptedOf(p, Build(p, w).value.request), report, Some(call.later), call.attestationId)
        case Err(_) => Failed(500, "RELEASE_VERIFIER_ATTESTATION_FAILED")
        case Ok(a) => Answer(a.body)
    {
      AttestsAs(p, w, report, call.later, call.attestationId);
    }
    assert map["protocolVersion" := Num(2), "mode" := Str(c.mode), "webMcpImplementation" := Str("native")]
      == map["mode" := Str(c.mode), "protocolVersion" := Num(2), "webMcpImplementation" := Str("native")];
  }

  lemma BuiltScope(p: Platform, w: Wish)
    requires Build(p, w).Ok?
    ensures w.operation in OPERATIONS && w.scope.Obj?
    ensures var key := if w.operation == "readiness" then "deploymentIdentityDigest" else "targetOrigin";
      key in w.scope.fields && w.scope.fields[key].Str?
  {
    hide Canonical, RequestJson, Base64Url, ByteLength, ExactPage, ExactOrigin, IsHash, IsUuidV4;
  }

  /**
   What the handler answers to a request the client built, posted anywhere at any time. Only by the path of its own
   operation, in its sixty seconds, with fresh keys and room for two, it is answered with the report of its evaluation.
   */
  lemma PostedExactly(p: Platform, c: Server.Config, w: Wish, call: Call, d: Durable)
    requires Buildable(p, w) && call.body == Some(Build(p, w).value.body)
    requires call.authorization == Some("Bearer " + p.token) && call.signed && call.w1 == call.w2 == Flushed
    ensures var live := Live(d.held, call.now);
      Handled(p, c, d, true, call).0 ==
        if call.path !in PATHS then Failed(404, "RELEASE_VERIFIER_NOT_FOUND")
        else if call.verb != "POST" then Failed(405, "RELEASE_VERIFIER_METHOD_NOT_ALLOWED")
        else if !IsPathOf(call.path, w.operation) then Failed(400, "RELEASE_VERIFIER_REQUEST_INVALID")
        else if call.now < w.at then Failed(400, "RELEASE_VERIFIER_REQUEST_FUTURE")
        else if w.at + 60000 <= call.now then Failed(400, "RELEASE_VERIFIER_REQUEST_EXPIRED")
        else if "request:" + w.requestId in live || "nonce:" + p.sha256(Base64Url(w.nonceBytes)) in live
          || |live| + 2 > c.replayEntries then Failed(409, "RELEASE_VERIFIER_REQUEST_REPLAYED")
        else Answering(p, c, w, call)
    ensures !IsPathOf(call.path, w.operation) || call.verb != "POST" || !(w.at <= call.now < w.at + 60000) ==>
      Handled(p, c, d, true, call).1 == d
  {
    hide Client.BuildRequest, Sound, Server.Examine, Server.AdmitKeys, Live, Base64Url, Answered, Answering;
    BuiltScope(p, w);
    NonceText(p, w);
    if IsPathOf(call.path, w.operation) {
      BuiltRequestExamined(p, w.operation, w.scope, w.payload, w.at, w.requestId, w.nonceBytes, call.now);
      BuiltRequestAccepted(p, w.operation, w.scope, w.payload, w.at, w.requestId, w.nonceBytes, call.now, d,
        c.replayEntries, true, Flushed, Flushed);
      AnswersAs(p, c, w, call);
    } else if call.path in PATHS {
      OtherOperation(p, w, Server.OperationForPath(call.path).value, call.now);
    }
  }
}
