/** The readiness exchange always succeeds, and there is a platform that meets every assumption made of one. */
module VerifierReadiness {
  import opened Wrappers
  import opened Unicode
  import opened Decimal
  import opened JsonText
  import opened JsonSize
  import opened ReplayStore
  import opened VerifierEnvelope
  import opened VerifierCalls
  import opened VerifierSystem
  import opened VerifierSafety
  import opened VerifierTheorems
  import Server = VerifierServer
  import Client = VerifierClient

  const SMALL := 2000

  function ReadinessScope(digest: string): Json
  {
    Obj(map["operation" := Str("readiness"), "deploymentIdentityDigest" := Str(digest)])
  }

  function ReadinessReport(c: Server.Config): Json
  {
    Obj(map["mode" := Str(c.mode), "protocolVersion" := Num(2), "webMcpImplementation" := Str("native")])
  }

  // ---- Both bodies fit ----

  lemma ScopeMembers(digest: string)
    requires |digest| <= 64
    ensures ReadinessScope(digest).Obj? && SmallMembers(ReadinessScope(digest), 386)
  {
    hide ByteLength, Canonical;
    StringBytes("readiness", 64);
    StringBytes(digest, 64);
  }

  lemma ScopeKeyCount(digest: string)
    ensures |ReadinessScope(digest).fields.Keys| == 2
  {
    assert ReadinessScope(digest).fields.Keys == {"operation", "deploymentIdentityDigest"};
  }

  lemma ScopeSmall(digest: string)
    requires |digest| <= 64
    ensures ByteLength(Canonical(ReadinessScope(digest))) <= SMALL
  {
    hide ByteLength, Canonical, ReadinessScope, SmallMembers;
    ScopeMembers(digest);
    ScopeKeyCount(digest);
    ObjectBytes(ReadinessScope(digest), 386, 2);
  }

  lemma ReportMembers(c: Server.Config)
    requires |c.mode| <= 64
    ensures ReadinessReport(c).Obj? && SmallMembers(ReadinessReport(c), 386)
  {
    hide ByteLength, Canonical;
    StringBytes(c.mode, 64);
    StringBytes("native", 64);
    SmallNumberBytes(2);
  }

  lemma ReportKeyCount(c: Server.Config)
    ensures |ReadinessReport(c).fields.Keys| == 3
  {
    assert ReadinessReport(c).fields.Keys == {"mode", "protocolVersion", "webMcpImplementation"};
  }

  lemma ReportSmall(c: Server.Config)
    requires |c.mode| <= 64
    ensures ByteLength(Canonical(ReadinessReport(c))) <= SMALL
  {
    hide ByteLength, Canonical, ReadinessReport, SmallMembers;
    ReportMembers(c);
    ReportKeyCount(c);
    ObjectBytes(ReadinessReport(c), 386, 3);
  }

  predicate ShortStrings(q: Request)
  {
    && |q.requestId| <= 64 && |q.nonce| <= 64 && |q.operation| <= 64 && |q.issuedAt| <= 64 && |q.expiresAt| <= 64
    && |q.scopeDigest| <= 64 && |q.payloadDigest| <= 64
  }

  lemma RequestSmall(q: Request)
    requires ShortStrings(q)
    requires ByteLength(Canonical(q.scope)) <= SMALL && ByteLength(Canonical(q.payload)) <= SMALL
    ensures ByteLength(Canonical(RequestJson(q))) <= MAX_REQUEST_BYTES
  {
    hide ByteLength, Canonical, RequestJson, ShortStrings;
    RequestKeyCount(q);
    var v := RequestJson(q);
    forall k | k in v.fields
      ensures |k| <= 24 && ByteLength(Canonical(v.fields[k])) <= SMALL
    {
      RequestMemberSmall(q, k);
    }
    ObjectBytes(v, SMALL, 11);
  }

  lemma RequestKeysCounted()
    ensures |REQUEST_KEYS| == 11
  {
  }

  lemma RequestKeysAre(q: Request)
    ensures ExactKeys(RequestJson(q), REQUEST_KEYS)
  {
    hide RequestJson;
    RequestFields(q);
  }

  lemma RequestKeyCount(q: Request)
    ensures RequestJson(q).Obj? && |RequestJson(q).fields.Keys| == 11
  {
    hide RequestJson;
    RequestKeysCounted();
    RequestKeysAre(q);
  }

  lemma RequestMemberSmall(q: Request, k: string)
    requires ShortStrings(q) && k in RequestJson(q).fields
    requires ByteLength(Canonical(q.scope)) <= SMALL && ByteLength(Canonical(q.payload)) <= SMALL
    ensures |k| <= 24 && ByteLength(Canonical(RequestJson(q).fields[k])) <= SMALL
  {
    hide ByteLength, Canonical, RequestJson;
    RequestFields(q);
    var v := RequestJson(q).fields[k];
    assert k in REQUEST_KEYS;
    if k == "protocolVersion" {
      SmallNumberBytes(2);
    } else if k != "scope" && k != "payload" {
      assert v.Str? && |v.s| <= 64;
      StringBytes(v.s, 64);
    }
  }

  predicate ShortFields(a: Attestation)
  {
    && |a.attestationId| <= 64 && |a.requestId| <= 64 && |a.nonceDigest| <= 64 && |a.operation| <= 64
    && |a.scopeDigest| <= 64 && |a.payloadDigest| <= 64 && |a.issuedAt| <= 64 && |a.expiresAt| <= 64
    && |a.attestedAt| <= 64
  }

  lemma AttestationSmall(a: Attestation, report: Json)
    requires ShortFields(a) && ByteLength(Canonical(report)) <= SMALL
    ensures ByteLength(Canonical(AttestationJson(a, report))) <= MAX_RESPONSE_BYTES
  {
    hide ByteLength, Canonical, AttestationJson, ShortFields;
    AttestationKeyCount(a, report);
    var v := AttestationJson(a, report);
    forall k | k in v.fields
      ensures |k| <= 24 && ByteLength(Canonical(v.fields[k])) <= SMALL
    {
      AttestationMemberSmall(a, report, k);
    }
    ObjectBytes(v, SMALL, 12);
  }

  lemma AttestationKeysCounted()
    ensures |ATTESTATION_KEYS| == 12
  {
  }

  lemma AttestationKeysAre(a: Attestation, report: Json)
    ensures ExactKeys(AttestationJson(a, report), ATTESTATION_KEYS)
  {
    hide AttestationJson;
    AttestationFields(a, report);
  }

  lemma AttestationKeyCount(a: Attestation, report: Json)
    ensures AttestationJson(a, report).Obj? && |AttestationJson(a, report).fields.Keys| == 12
  {
    hide AttestationJson;
    AttestationKeysCounted();
    AttestationKeysAre(a, report);
  }

  lemma AttestationMemberSmall(a: Attestation, report: Json, k: string)
    requires ShortFields(a) && k in AttestationJson(a, report).fields && ByteLength(Canonical(report)) <= SMALL
    ensures |k| <= 24 && ByteLength(Canonical(AttestationJson(a, report).fields[k])) <= SMALL
  {
    hide ByteLength, Canonical, AttestationJson;
    AttestationFields(a, report);
    var v := AttestationJson(a, report).fields[k];
    assert k in ATTESTATION_KEYS;
    if k == "protocolVersion" {
      SmallNumberBytes(2);
    } else if k != "report" {
      assert v.Str? && |v.s| <= 64;
      StringBytes(v.s, 64);
    }
  }

  // ---- The exchange ----

  /** What a client needs for asking whether the server is ready. */
  predicate Askable(u: Setup, clock: int, digest: string, payload: Json, requestId: string, nonceBytes: seq<Byte>)
  {
    && Printable(clock) && Client.ValidToken(u.platform.token)
    && IsHash(digest) && IsUuidV4(requestId) && |nonceBytes| == 32 && ByteLength(Canonical(payload)) <= SMALL
  }

  lemma Builds(u: Setup, clock: int, digest: string, payload: Json, requestId: string, nonceBytes: seq<Byte>)
    requires Sound(u.platform) && Askable(u, clock, digest, payload, requestId, nonceBytes)
    ensures Client.BuildRequest(u.platform, "readiness", ReadinessScope(digest), payload, Some(clock), requestId,
      nonceBytes).Ok?
  {
    hide ByteLength, Canonical, RequestJson, Client.ValidToken, IsUuidV4, IsTimestamp, ReadinessScope;
    var p := u.platform;
    var q := Request(requestId, Base64Url(nonceBytes), "readiness", p.iso(clock), p.iso(clock + REQUEST_LIFETIME_MS),
      ReadinessScope(digest), p.sha256(Canonical(ReadinessScope(digest))), payload, p.sha256(Canonical(payload)));
    ScopeValid(p, digest);
    ScopeSmall(digest);
    Lengths(p, clock, requestId);
    assert IsHash(q.scopeDigest) && IsHash(q.payloadDigest);
    RequestSmall(q);
  }

  lemma Lengths(p: Platform, clock: int, requestId: string)
    requires Sound(p) && Printable(clock) && IsUuidV4(requestId)
    ensures |requestId| == 36 && |p.iso(clock)| == 24 && |p.iso(clock + REQUEST_LIFETIME_MS)| == 24
  {
    assert IsTimestamp(p.iso(clock)) && IsTimestamp(p.iso(clock + REQUEST_LIFETIME_MS));
  }

  lemma ScopeValid(p: Platform, digest: string)
    requires IsHash(digest)
    ensures Client.ValidScope(p, ReadinessScope(digest), "readiness")
  {
    hide IsHash;
    assert ReadinessScope(digest).fields.Keys == {"deploymentIdentityDigest", "operation"};
  }

  lemma Attests(u: Setup, at: int, serverNow: int, digest: string, payload: Json, requestId: string,
    nonceBytes: seq<Byte>, attestationId: string)
    requires Sound(u.platform) && Askable(u, at, digest, payload, requestId, nonceBytes)
    requires IsUuidV4(attestationId) && |u.config.mode| <= 64
    requires Client.BuildRequest(u.platform, "readiness", ReadinessScope(digest), payload, Some(at), requestId,
      nonceBytes).Ok?
    ensures var built := Client.BuildRequest(u.platform, "readiness", ReadinessScope(digest), payload, Some(at),
        requestId, nonceBytes).value;
      Server.BuildAttestation(u.platform, AcceptedOf(u.platform, built.request), ReadinessReport(u.config),
        Some(serverNow), attestationId).Ok?
  {
    hide ByteLength, Canonical, AttestationJson, Client.BuildRequest, Client.ValidToken, ReadinessReport, RequestJson;
    hide IsUuidV4, IsTimestamp, ReadinessScope;
    var p := u.platform;
    BuiltFields(p, "readiness", ReadinessScope(digest), payload, at, requestId, nonceBytes);
    BuiltContextValid(p, "readiness", ReadinessScope(digest), payload, at, requestId, nonceBytes);
    var attestedAt := Server.Clamp(serverNow, at, at + REQUEST_LIFETIME_MS);
    Lengths(p, at, requestId);
    InstantLength(p, attestedAt);
    IdLength(attestationId);
    ReportSmall(u.config);
    var q := Client.BuildRequest(p, "readiness", ReadinessScope(digest), payload, Some(at), requestId,
      nonceBytes).value.request;
    assert IsHash(q.scopeDigest) && IsHash(q.payloadDigest) && IsHash(p.sha256(q.nonce));
    AttestationSmall(Attestation(attestationId, q.requestId, p.sha256(q.nonce), q.operation, q.scopeDigest,
      q.payloadDigest, p.iso(attestedAt), q.expiresAt, p.iso(attestedAt)), ReadinessReport(u.config));
  }

  lemma InstantLength(p: Platform, t: int)
    requires Sound(p) && FourDigitYear(t)
    ensures |p.iso(t)| == 24
  {
    assert IsTimestamp(p.iso(t));
  }

  lemma IdLength(id: string)
    requires IsUuidV4(id)
    ensures |id| == 36
  {
  }

  /**
   Readiness. On every platform that is as assumed, at any time that can be printed, a client asking for a deployment
   the server knows is sent its fixed report, and accepts it exactly when the two clocks allow.
   */
  lemma ReadinessSucceeds(u: Setup, start: State, digest: string, payload: Json, requestId: string,
    nonceBytes: seq<Byte>, attestationId: string, to: int) returns (x: Exchange)
    requires Starts(u, start) && Askable(u, start.clientClock, digest, payload, requestId, nonceBytes)
    requires 0 <= start.clientClock <= to && IsUuidV4(attestationId) && |u.config.mode| <= 64
    requires u.config.acceptedDeployments == [] || digest in u.config.acceptedDeployments
    requires Live(start.store.held, start.clock) == map[] && 2 <= u.config.replayEntries && 1 <= u.guardEntries
    ensures x.operation == "readiness" && x.scope == ReadinessScope(digest) && x.payload == payload
    ensures x.requestId == requestId && Possible(u, start.clientClock, start.clock, x)
    ensures Run(u, start, Steps(u, x, to)).delivered ==
      if InTime(start.clientClock, start.clock) && start.clock <= to < start.clientClock + REQUEST_LIFETIME_MS then
        [Delivery(0, Client.Verified(ReadinessReport(u.config), x.attested.attestation), to)]
      else []
  {
    hide Client.BuildRequest, Server.BuildAttestation, Run, Sound, Live, Canonical, ByteLength, IsUuidV4, IsHash, Steps;
    var p, scope, at := u.platform, ReadinessScope(digest), start.clientClock;
    Builds(u, at, digest, payload, requestId, nonceBytes);
    Attests(u, at, start.clock, digest, payload, requestId, nonceBytes, attestationId);
    var built := Client.BuildRequest(p, "readiness", scope, payload, Some(at), requestId, nonceBytes).value;
    var attested := Server.BuildAttestation(p, AcceptedOf(p, built.request), ReadinessReport(u.config),
      Some(start.clock), attestationId).value;
    x := Exchange("readiness", scope, payload, requestId, nonceBytes, built, Server.Refused(""),
      ReadinessReport(u.config), attestationId, attested);
    BuiltFields(p, "readiness", scope, payload, at, requestId, nonceBytes);
    ReadinessEvaluates(u.config, AcceptedOf(p, built.request), digest);
    ExchangeSucceeds(u, start, x, to);
  }

  lemma ReadinessEvaluates(c: Server.Config, r: Server.Accepted, digest: string)
    requires r.operation == "readiness" && r.scope == ReadinessScope(digest)
    requires c.acceptedDeployments == [] || digest in c.acceptedDeployments
    ensures Server.Evaluate(c, r, Server.Refused("")) == Server.Report(ReadinessReport(c))
  {
  }

  // ---- A platform as assumed ----

  const OFFSET := 62167219200000

  /** The last `k` decimal digits of a number. */
  function Pad(n: nat, k: nat): (s: string)
    ensures |s| == k && AllDigits(s)
  {
    if k == 0 then "" else Pad(n / 10, k - 1) + [DigitChar(n % 10)]
  }

  lemma {:induction false} PadValue(n: nat, k: nat)
    requires n < Pow10(k)
    ensures Value(Pad(n, k)) == n
  {
    if k > 0 {
      PadValue(n / 10, k - 1);
      var s := Pad(n, k);
      assert s[..|s| - 1] == Pad(n / 10, k - 1);
    }
  }

  /** Seventeen digits in the places of a timestamp. */
  function Stamp(d: string): (s: string)
    requires |d| == 17
    ensures |s| == 24
  {
    [d[0], d[1], d[2], d[3], '-', d[4], d[5], '-', d[6], d[7], 'T', d[8], d[9], ':', d[10], d[11], ':', d[12], d[13],
     '.', d[14], d[15], d[16], 'Z']
  }

  function Unstamp(s: string): (d: string)
    requires |s| == 24
    ensures |d| == 17
  {
    [s[0], s[1], s[2], s[3], s[5], s[6], s[8], s[9], s[11], s[12], s[14], s[15], s[17], s[18], s[20], s[21], s[22]]
  }

  lemma StampForm(d: string)
    requires |d| == 17 && AllDigits(d)
    ensures IsTimestamp(Stamp(d)) && Unstamp(Stamp(d)) == d
  {
    var s := Stamp(d);
    assert s[4] == '-' && s[7] == '-' && s[10] == 'T' && s[13] == ':' && s[16] == ':' && s[19] == '.' && s[23] == 'Z';
  }

  /** Counts milliseconds in the places of a timestamp: no calendar, but as good as one for what is assumed. */
  function CountedIso(t: int): string
  {
    if FourDigitYear(t) then Stamp(Pad(t + OFFSET, 17)) else ""
  }

  function CountedParse(s: string): Option<int>
  {
    if !IsTimestamp(s) || !AllDigits(Unstamp(s)) then None
    else
      var t := Value(Unstamp(s)) - OFFSET;
      if FourDigitYear(t) then Some(t) else None
  }

  const ZEROS := seq(64, _ => '0')
  const ZERO_ID :=
    seq(36, i => if i in {8, 13, 18, 23} then '-' else if i == 14 then '4' else if i == 19 then '8' else '0')
  const TOKEN := seq(32, _ => 't')

  const COUNTING := Platform(
    _ => ZEROS, t => CountedIso(t), s => CountedParse(s), _ => false, (_, _) => false, TOKEN)

  lemma CountingIsSound()
    ensures Sound(COUNTING)
  {
    ZerosFit();
    forall t | FourDigitYear(t)
      ensures IsTimestamp(CountedIso(t)) && CountedParse(CountedIso(t)) == Some(t)
    {
      CountedRoundTrip(t);
    }
    hide CountedIso, CountedParse, IsTimestamp;
  }

  lemma CountedRoundTrip(t: int)
    requires FourDigitYear(t)
    ensures IsTimestamp(CountedIso(t)) && CountedParse(CountedIso(t)) == Some(t)
  {
    hide Pad, Stamp, Unstamp, IsTimestamp, Pow10;
    StampForm(Pad(t + OFFSET, 17));
    SeventeenDigits();
    PadValue(t + OFFSET, 17);
  }

  lemma SeventeenDigits()
    ensures Pow10(17) > 1000000000000000
  {
    hide Pow10;
    TenToFifteen();
    PowerGrows(15);
    PowerGrows(16);
  }

  lemma PowerGrows(k: nat)
    ensures Pow10(k + 1) == 10 * Pow10(k)
  {
  }

  /** There are a platform, a server and a client that the theorems of this project speak of, and they do talk. */
  lemma SomeExchangeSucceeds() returns (u: Setup, start: State, x: Exchange)
    ensures Starts(u, start) && Possible(u, start.clientClock, start.clock, x)
    ensures |Run(u, start, Steps(u, x, start.clientClock)).delivered| == 1
  {
    hide Run, Possible, Canonical, Live, Sound, Steps, ByteLength, IsHash, IsUuidV4, Client.ValidToken;
    u := Setup(COUNTING, Server.Config("live", [], [], 2), 1);
    start := Init(Durable(map[], []), 0, 0);
    CountingIsSound();
    NothingLive();
    EmptyPayload();
    ZerosFit();
    var nonceBytes: seq<Byte> := seq(32, _ => 0);
    x := ReadinessSucceeds(u, start, ZEROS, Obj(map[]), ZERO_ID, nonceBytes, ZERO_ID, 0);
  }

  lemma ZerosFit()
    ensures IsHash(ZEROS) && IsUuidV4(ZERO_ID) && Client.ValidToken(TOKEN)
  {
    assert ZERO_ID[14] == '4' && ZERO_ID[19] == '8';
  }

  lemma NothingLive()
    ensures Live(map[], 0) == map[]
  {
  }

  lemma EmptyPayload()
    ensures ByteLength(Canonical(Obj(map[]))) <= SMALL
  {
    hide ByteLength, Canonical;
    var v := Obj(map[]);
    assert v.fields.Keys == {};
    ObjectBytes(v, 0, 0);
  }
}
