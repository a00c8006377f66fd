/** What each half of the protocol accepts, exactly: when a request is built, when it is admitted, and a response. */
module VerifierExact {
  import opened Wrappers
  import opened Unicode
  import opened JsonText
  import opened JsonRoundTrip
  import opened ReplayStore
  import opened VerifierEnvelope
  import opened VerifierCalls
  import Server = VerifierServer
  import Client = VerifierClient

  // ---- Forms ----

  /** Lower-case hexadecimal digits, this many. */
  predicate Hex(s: string, n: nat)
  {
    |s| == n && forall i :: 0 <= i < n ==> 0x30 <= s[i] as int <= 0x39 || 0x61 <= s[i] as int <= 0x66
  }

  /** An identifier is five groups of digits, the third from a 4 and the fourth from one of 8, 9, a and b. */
  lemma IdentifierForm(s: string)
    ensures IsUuidV4(s) <==>
      && |s| == 36 && s[8] == s[13] == s[18] == s[23] == '-' && s[14] == '4' && s[19] in {'8', '9', 'a', 'b'}
      && Hex(s[..8], 8) && Hex(s[9..13], 4) && Hex(s[14..18], 4) && Hex(s[19..23], 4) && Hex(s[24..], 12)
  {
    if |s| == 36 {
      Groups(s);
    }
  }

  lemma Groups(s: string)
    requires |s| == 36
    ensures (Hex(s[..8], 8) && Hex(s[9..13], 4) && Hex(s[14..18], 4) && Hex(s[19..23], 4) && Hex(s[24..], 12))
       <==> forall i :: 0 <= i < 36 && i !in {8, 13, 18, 23} ==> LowerHex(s[i])
  {
    if Hex(s[..8], 8) && Hex(s[9..13], 4) && Hex(s[14..18], 4) && Hex(s[19..23], 4) && Hex(s[24..], 12) {
      forall i | 0 <= i < 36 && i !in {8, 13, 18, 23}
        ensures LowerHex(s[i])
      {
        assert i < 8 ==> s[i] == s[..8][i];
        assert 9 <= i < 13 ==> s[i] == s[9..13][i - 9];
        assert 14 <= i < 18 ==> s[i] == s[14..18][i - 14];
        assert 19 <= i < 23 ==> s[i] == s[19..23][i - 19];
        assert 24 <= i ==> s[i] == s[24..][i - 24];
      }
    }
  }

  predicate Digits(s: string, n: nat)
  {
    |s| == n && forall i :: 0 <= i < n ==> 0x30 <= s[i] as int <= 0x39
  }

  lemma TimestampForm(s: string)
    ensures IsTimestamp(s) <==>
      && |s| == 24 && s[4] == s[7] == '-' && s[10] == 'T' && s[13] == s[16] == ':' && s[19] == '.' && s[23] == 'Z'
      && Digits(s[..4], 4) && Digits(s[5..7], 2) && Digits(s[8..10], 2) && Digits(s[11..13], 2)
      && Digits(s[14..16], 2) && Digits(s[17..19], 2) && Digits(s[20..23], 3)
  {
    if |s| == 24 {
      Places(s);
    }
  }

  lemma Places(s: string)
    requires |s| == 24
    ensures (&& Digits(s[..4], 4) && Digits(s[5..7], 2) && Digits(s[8..10], 2) && Digits(s[11..13], 2)
             && Digits(s[14..16], 2) && Digits(s[17..19], 2) && Digits(s[20..23], 3))
       <==> forall i :: 0 <= i < 24 && i !in {4, 7, 10, 13, 16, 19, 23} ==> '0' <= s[i] <= '9'
  {
    forall i | 0 <= i < 24 && i !in {4, 7, 10, 13, 16, 19, 23}
      ensures i < 4 ==> s[i] == s[..4][i]
      ensures 5 <= i < 7 ==> s[i] == s[5..7][i - 5]
      ensures 8 <= i < 10 ==> s[i] == s[8..10][i - 8]
      ensures 11 <= i < 13 ==> s[i] == s[11..13][i - 11]
      ensures 14 <= i < 16 ==> s[i] == s[14..16][i - 14]
      ensures 17 <= i < 19 ==> s[i] == s[17..19][i - 17]
      ensures 20 <= i < 23 ==> s[i] == s[20..23][i - 20]
    {
    }
  }

  /** A nonce is 43 characters that each stand for six bits. */
  lemma NonceForm(s: string)
    ensures IsNonce(s) <==> |s| == 43 && forall i :: 0 <= i < |s| ==> Sextet(s[i]).Some?
  {
  }

  lemma HashForm(s: string)
    ensures IsHash(s) <==> Hex(s, 64)
  {
  }

  // ---- Scopes ----

  predicate IsId(v: Json)
  {
    v.Str? && IsUuidV4(v.s)
  }

  predicate IsDigest(v: Json)
  {
    v.Str? && IsHash(v.s)
  }

  /** A scope names its operation and holds, of the right forms, what that operation is about, and nothing else. */
  lemma ScopeExactly(p: Platform, v: Json, operation: string)
    requires operation in OPERATIONS
    ensures Server.ValidScope(p, v, operation) <==>
      && v.Obj?
      && if operation == "readiness" then
           && v.fields.Keys == {"operation", "deploymentIdentityDigest"}
           && v.fields["operation"] == Str(operation) && IsDigest(v.fields["deploymentIdentityDigest"])
         else
           && v.fields.Keys == {"operation", "projectId", "sourceIdentityHash", "targetOrigin", "environment"}
                + (if operation == "candidate" then {"analysisRunId", "contentHash"}
                   else {"installationOperationId", "pageUrl", "releaseId", "selectedHash"})
           && v.fields["operation"] == Str(operation) && IsId(v.fields["projectId"])
           && IsDigest(v.fields["sourceIdentityHash"])
           && v.fields["targetOrigin"].Str? && |Units(v.fields["targetOrigin"].s)| <= 2048
           && p.httpsOrigin(v.fields["targetOrigin"].s)
           && v.fields["environment"] in {Str("test"), Str("staging"), Str("production")}
           && if operation == "candidate" then IsId(v.fields["analysisRunId"]) && IsDigest(v.fields["contentHash"])
              else
                && IsId(v.fields["releaseId"]) && IsDigest(v.fields["installationOperationId"])
                && IsDigest(v.fields["selectedHash"])
                && v.fields["pageUrl"].Str? && |Units(v.fields["pageUrl"].s)| <= 4096
                && p.httpsPage(v.fields["pageUrl"].s, v.fields["targetOrigin"].s)
  {
    hide IsUuidV4, IsHash, Units;
  }

  // ---- Building ----

  function RequestAt(p: Platform, operation: string, scope: Json, payload: Json, at: int, requestId: string,
    nonceBytes: seq<Byte>): Request
  {
    Request(requestId, Base64Url(nonceBytes), operation, p.iso(at), p.iso(at + 60000),
      scope, p.sha256(Canonical(scope)), payload, p.sha256(Canonical(payload)))
  }

  predicate ProperToken(token: string)
  {
    32 <= |token| <= 4096 && forall i :: 0 <= i < |token| ==> 0x21 <= token[i] as int <= 0x7E
  }

  /** A request is built exactly from a proper token, scope, time, identifier and nonce, when its text fits. */
  lemma BuildsExactly(p: Platform, operation: string, scope: Json, payload: Json, now: Option<int>, requestId: string,
    nonceBytes: seq<Byte>)
    ensures Client.BuildRequest(p, operation, scope, payload, now, requestId, nonceBytes) ==
      if !ProperToken(p.token) || operation !in OPERATIONS || !Server.ValidScope(p, scope, operation) then
        Err("RELEASE_VERIFIER_REQUEST_INVALID")
      else if now.None? then Err("RELEASE_VERIFIER_TIME_INVALID")
      else
        var q := RequestAt(p, operation, scope, payload, now.value, requestId, nonceBytes);
        if !IsUuidV4(requestId) || |nonceBytes| != 32 || ByteLength(Canonical(RequestJson(q))) > 163840 then
          Err("RELEASE_VERIFIER_REQUEST_INVALID")
        else
          Ok(Client.Built(q, Canonical(RequestJson(q)), Context(q.requestId, p.sha256(q.nonce), q.operation,
            q.scopeDigest, q.payloadDigest, q.issuedAt, q.expiresAt)))
  {
    hide Canonical, RequestJson, Client.ValidScope, Server.ValidScope, ByteLength, Base64Url, IsUuidV4;
    ScopesAgree(p, scope, operation);
    assert Client.ValidToken(p.token) <==> ProperToken(p.token);
  }

  // ---- Admitting ----

  /** A request as the server may admit it by one path at a time. */
  predicate Admissible(p: Platform, q: Request, operation: string, now: int)
  {
    && q.operation == operation && IsUuidV4(q.requestId) && IsNonce(q.nonce)
    && IsHash(q.scopeDigest) && q.scopeDigest == p.sha256(Canonical(q.scope))
    && IsHash(q.payloadDigest) && q.payloadDigest == p.sha256(Canonical(q.payload))
    && ValidTimestamp(p, Str(q.issuedAt)) == Pass && ValidTimestamp(p, Str(q.expiresAt)) == Pass
    && Server.ValidScope(p, q.scope, operation)
    && DateOf(p, q.issuedAt) <= now < DateOf(p, q.expiresAt) <= DateOf(p, q.issuedAt) + 120000
  }

  /** The request a body with the right members holds. */
  function RequestOf(f: map<string, Json>): Request
    requires f.Keys == REQUEST_KEYS && f["requestId"].Str? && f["nonce"].Str? && f["operation"].Str?
    requires f["issuedAt"].Str? && f["expiresAt"].Str? && f["scopeDigest"].Str? && f["payloadDigest"].Str?
  {
    Request(f["requestId"].s, f["nonce"].s, f["operation"].s, f["issuedAt"].s, f["expiresAt"].s,
      f["scope"], f["scopeDigest"].s, f["payload"], f["payloadDigest"].s)
  }

  lemma RequestOfJson(f: map<string, Json>)
    requires f.Keys == REQUEST_KEYS && f["requestId"].Str? && f["nonce"].Str? && f["operation"].Str?
    requires f["issuedAt"].Str? && f["expiresAt"].Str? && f["scopeDigest"].Str? && f["payloadDigest"].Str?
    requires f["schema"] == Str("ReleaseVerifierRequestV2") && f["protocolVersion"] == Num(2)
    ensures RequestJson(RequestOf(f)) == Obj(f)
  {
    var g := RequestJson(RequestOf(f)).fields;
    RequestFields(RequestOf(f));
    assert g.Keys == f.Keys;
    forall k | k in f
      ensures g[k] == f[k]
    {
      assert k in REQUEST_KEYS;
    }
    assert g == f;
  }

  /**
   A body is admitted exactly when it is short enough, comes with the token and a signature that verifies, and is the
   canonical text of an admissible request; and it is admitted as that request.
   */
  lemma AdmittedExactly(p: Platform, operation: string, body: string, authorization: Option<string>, signed: bool,
    now: int, r: Server.Accepted)
    ensures Server.Examine(p, operation, body, authorization, signed, Some(now)) == Server.Admitted(r) <==>
      && ByteLength(body) <= 163840 && authorization == Some("Bearer " + p.token) && signed
      && exists q :: body == Canonical(RequestJson(q)) && Admissible(p, q, operation, now) && r == AcceptedOf(p, q)
  {
    hide Canonical, Parse, RequestJson, ByteLength, Server.ValidScope, IsUuidV4, IsHash, IsNonce, ValidTimestamp;
    if Server.Examine(p, operation, body, authorization, signed, Some(now)) == Server.Admitted(r) {
      AdmittedIsRequest(p, operation, body, authorization, signed, now);
    }
    if q :| body == Canonical(RequestJson(q)) && Admissible(p, q, operation, now) && r == AcceptedOf(p, q) {
      if ByteLength(body) <= 163840 && authorization == Some("Bearer " + p.token) && signed {
        AdmissibleAdmitted(p, q, operation, now);
      }
    }
  }

  lemma AdmittedIsRequest(p: Platform, operation: string, body: string, authorization: Option<string>, signed: bool,
    now: int)
    requires Server.Examine(p, operation, body, authorization, signed, Some(now)).Admitted?
    ensures ByteLength(body) <= 163840 && authorization == Some("Bearer " + p.token) && signed
    ensures exists q ::
      && body == Canonical(RequestJson(q)) && Admissible(p, q, operation, now)
      && Server.Examine(p, operation, body, authorization, signed, Some(now)).request == AcceptedOf(p, q)
  {
    hide Canonical, Parse, RequestJson, ByteLength, Server.ValidScope, IsUuidV4, IsHash, IsNonce, IsTimestamp;
    var v := ParseCanonical(body).value;
    RequestOfJson(v.fields);
    var q := RequestOf(v.fields);
    assert body == Canonical(RequestJson(q));
    assert authorization.value[..7] == "Bearer ";
    assert authorization.value == authorization.value[..7] + authorization.value[7..];
    assert Admissible(p, q, operation, now);
  }

  lemma AdmissibleAdmitted(p: Platform, q: Request, operation: string, now: int)
    requires Admissible(p, q, operation, now) && ByteLength(Canonical(RequestJson(q))) <= 163840
    ensures Server.Examine(p, operation, Canonical(RequestJson(q)), Some("Bearer " + p.token), true, Some(now))
         == Server.Admitted(AcceptedOf(p, q))
  {
    hide Canonical, Parse, RequestJson, ByteLength, Server.ValidScope, IsUuidV4, IsHash, IsNonce, ValidTimestamp;
    CanonicalExactly(Canonical(RequestJson(q)), RequestJson(q));
    RequestFields(q);
    assert ("Bearer " + p.token)[..7] == "Bearer " && ("Bearer " + p.token)[7..] == p.token;
  }

  /** What is refused before the body is read: its size first, then the token, then the signature. */
  lemma RefusedUnread(p: Platform, operation: string, body: string, authorization: Option<string>, signed: bool,
    now: Option<int>)
    ensures var v := Server.Examine(p, operation, body, authorization, signed, now);
      if ByteLength(body) > 163840 then v == Server.Rejected(413, "RELEASE_VERIFIER_REQUEST_TOO_LARGE")
      else if authorization != Some("Bearer " + p.token) then
        v == Server.Rejected(401, "RELEASE_VERIFIER_UNAUTHORIZED")
      else if !signed then v == Server.Rejected(401, "RELEASE_VERIFIER_SIGNATURE_INVALID")
      else v.Admitted? || v.Thrown? || v.status == 400 || v == Server.Rejected(500, "RELEASE_VERIFIER_TIME_INVALID")
  {
    hide Canonical, Parse, ByteLength, Server.CheckEnvelope;
    assert ("Bearer " + p.token)[..7] == "Bearer " && ("Bearer " + p.token)[7..] == p.token;
    if authorization.Some? && "Bearer " <= authorization.value {
      assert authorization.value[..7] == "Bearer ";
      assert authorization.value == authorization.value[..7] + authorization.value[7..];
    }
  }

  // ---- Accepting a response ----

  /** An attestation as the client may accept it for a context at a time. */
  predicate Trusted(p: Platform, a: Attestation, c: Context, now: int)
  {
    && IsUuidV4(a.attestationId) && IsUuidV4(a.requestId) && a.operation in OPERATIONS
    && IsHash(a.nonceDigest) && IsHash(a.scopeDigest) && IsHash(a.payloadDigest)
    && ValidTimestamp(p, Str(a.issuedAt)) == Pass && ValidTimestamp(p, Str(a.expiresAt)) == Pass
    && ValidTimestamp(p, Str(a.attestedAt)) == Pass
    && a.requestId == c.requestId && a.nonceDigest == c.nonceDigest && a.operation == c.operation
    && a.scopeDigest == c.scopeDigest && a.payloadDigest == c.payloadDigest
    && DateOf(p, c.issuedAt) <= DateOf(p, a.issuedAt) <= DateOf(p, a.attestedAt) <= now < DateOf(p, a.expiresAt)
    && DateOf(p, a.expiresAt) <= DateOf(p, c.expiresAt) && DateOf(p, a.expiresAt) <= DateOf(p, a.issuedAt) + 120000
  }

  predicate ProperContext(p: Platform, c: Context)
  {
    && IsUuidV4(c.requestId) && c.operation in OPERATIONS
    && IsHash(c.nonceDigest) && IsHash(c.scopeDigest) && IsHash(c.payloadDigest)
    && ValidTimestamp(p, Str(c.issuedAt)) == Pass && ValidTimestamp(p, Str(c.expiresAt)) == Pass
    && DateOf(p, c.issuedAt) < DateOf(p, c.expiresAt) <= DateOf(p, c.issuedAt) + 120000
  }

  function AttestationOf(f: map<string, Json>): Attestation
    requires f.Keys == ATTESTATION_KEYS
    requires f["attestationId"].Str? && f["requestId"].Str? && f["nonceDigest"].Str? && f["operation"].Str?
    requires f["scopeDigest"].Str? && f["payloadDigest"].Str? && f["issuedAt"].Str? && f["expiresAt"].Str?
    requires f["attestedAt"].Str?
  {
    Attestation(f["attestationId"].s, f["requestId"].s, f["nonceDigest"].s, f["operation"].s, f["scopeDigest"].s,
      f["payloadDigest"].s, f["issuedAt"].s, f["expiresAt"].s, f["attestedAt"].s)
  }

  lemma AttestationOfJson(f: map<string, Json>)
    requires f.Keys == ATTESTATION_KEYS
    requires f["attestationId"].Str? && f["requestId"].Str? && f["nonceDigest"].Str? && f["operation"].Str?
    requires f["scopeDigest"].Str? && f["payloadDigest"].Str? && f["issuedAt"].Str? && f["expiresAt"].Str?
    requires f["attestedAt"].Str?
    requires f["schema"] == Str("ReleaseVerifierAttestationV2") && f["protocolVersion"] == Num(2)
    ensures AttestationJson(AttestationOf(f), f["report"]) == Obj(f)
  {
    var g := AttestationJson(AttestationOf(f), f["report"]).fields;
    AttestationFields(AttestationOf(f), f["report"]);
    assert g.Keys == f.Keys;
    forall k | k in f
      ensures g[k] == f[k]
    {
      assert k in ATTESTATION_KEYS;
    }
    assert g == f;
  }

  /**
   The client's checks accept a body exactly when its signature verifies, token and context are proper, and it is the
   canonical text, of 2 to 65536 bytes, of a trusted attestation with a report; and they accept that.
   */
  lemma ResponseExactly(p: Platform, body: string, signed: bool, c: Context, now: int, v: Client.Verified)
    ensures Client.ExamineResponse(p, body, signed, c, Some(now)) == Ok(v) <==>
      && signed && ProperToken(p.token) && ProperContext(p, c) && ByteLength(body) <= 65536
      && body == Canonical(AttestationJson(v.attestation, v.report)) && Trusted(p, v.attestation, c, now)
  {
    hide Canonical, Parse, AttestationJson, ByteLength, IsUuidV4, IsHash, ValidTimestamp, Client.CheckAttestation;
    ContextExactly(p, c);
    assert Client.ValidToken(p.token) <==> ProperToken(p.token);
    if Client.ExamineResponse(p, body, signed, c, Some(now)) == Ok(v) {
      AcceptedIsAttestation(p, body, signed, c, now);
    }
    if body == Canonical(AttestationJson(v.attestation, v.report)) && Trusted(p, v.attestation, c, now) {
      if signed && ProperToken(p.token) && ProperContext(p, c) && ByteLength(body) <= 65536 {
        TrustedAccepted(p, v.attestation, v.report, c, now);
      }
    }
  }

  lemma ContextExactly(p: Platform, c: Context)
    ensures Client.ValidContext(p, c) == Pass <==> ProperContext(p, c)
  {
    hide IsUuidV4, IsHash, ValidTimestamp;
  }

  lemma AcceptedIsAttestation(p: Platform, body: string, signed: bool, c: Context, now: int)
    requires Client.ExamineResponse(p, body, signed, c, Some(now)).Ok?
    ensures var v := Client.ExamineResponse(p, body, signed, c, Some(now)).value;
      && signed && ByteLength(body) <= 65536
      && body == Canonical(AttestationJson(v.attestation, v.report)) && Trusted(p, v.attestation, c, now)
  {
    hide Canonical, Parse, AttestationJson, ByteLength, IsUuidV4, IsHash, IsTimestamp;
    var f := ParseCanonical(body).value.fields;
    AttestationOfJson(f);
  }

  lemma TrustedAccepted(p: Platform, a: Attestation, report: Json, c: Context, now: int)
    requires Trusted(p, a, c, now) && ProperToken(p.token) && ProperContext(p, c)
    requires ByteLength(Canonical(AttestationJson(a, report))) <= 65536
    ensures Client.ExamineResponse(p, Canonical(AttestationJson(a, report)), true, c, Some(now))
         == Ok(Client.Verified(report, a))
  {
    hide Canonical, Parse, AttestationJson, ByteLength, IsUuidV4, IsHash, ValidTimestamp, Client.CheckAttestation;
    CanonicalExactly(Canonical(AttestationJson(a, report)), AttestationJson(a, report));
    AttestationFields(a, report);
    CanonicalLength(AttestationJson(a, report));
    AttestationPasses(p, a, report);
    ContextExactly(p, c);
  }

  /**
   What the client answers to the text of an attestation of the right form, in the order of its checks: the signature,
   what lies ahead, what has passed, the window, and last whether it is about this request.
   */
  lemma AttestationRefused(p: Platform, a: Attestation, report: Json, signed: bool, c: Context, now: int)
    requires ProperToken(p.token) && ProperContext(p, c)
    requires ByteLength(Canonical(AttestationJson(a, report))) <= 65536
    requires Client.CheckAttestation(p, AttestationJson(a, report)) == Pass
    ensures var issued, expires, attested := DateOf(p, a.issuedAt), DateOf(p, a.expiresAt), DateOf(p, a.attestedAt);
      Client.ExamineResponse(p, Canonical(AttestationJson(a, report)), signed, c, Some(now)) ==
        if !signed then Err(Client.Code("RELEASE_VERIFIER_RESPONSE_SIGNATURE_INVALID"))
        else if now < issued || now < attested then Err(Client.Code("RELEASE_VERIFIER_RESPONSE_FUTURE"))
        else if expires <= now || DateOf(p, c.expiresAt) <= now then
          Err(Client.Code("RELEASE_VERIFIER_RESPONSE_EXPIRED"))
        else if issued < DateOf(p, c.issuedAt) || DateOf(p, c.expiresAt) < expires || issued + 120000 < expires
          || attested < issued || expires < attested then
          Err(Client.Code("RELEASE_VERIFIER_RESPONSE_TIMELINE_INVALID"))
        else if a.requestId != c.requestId || a.nonceDigest != c.nonceDigest || a.operation != c.operation
          || a.scopeDigest != c.scopeDigest || a.payloadDigest != c.payloadDigest then
          Err(Client.Code("RELEASE_VERIFIER_RESPONSE_CONTEXT_MISMATCH"))
        else Ok(Client.Verified(report, a))
  {
    hide Canonical, Parse, AttestationJson, ByteLength, IsUuidV4, IsHash, ValidTimestamp, Client.CheckAttestation;
    CanonicalExactly(Canonical(AttestationJson(a, report)), AttestationJson(a, report));
    AttestationFields(a, report);
    CanonicalLength(AttestationJson(a, report));
    ContextExactly(p, c);
  }
}
