/** Safety of the release verifier protocol over every run: agreement, at most once, bounded replay state. */
module VerifierSafety {
  import opened Wrappers
  import opened Unicode
  import opened Decimal
  import opened JsonText
  import opened ReplayFile
  import opened ReplayStore
  import opened ReplayRuns
  import opened VerifierEnvelope
  import opened VerifierCalls
  import opened VerifierSystem
  import Collections
  import Server = VerifierServer
  import Client = VerifierClient

  function Expiry(p: Platform, a: Acceptance): int
  {
    DateOf(p, a.request.expiresAt)
  }

  // ---- The invariant, part by part ----

  ghost predicate SentOk(p: Platform, sent: seq<Sent>)
  {
    && (forall i :: 0 <= i < |sent| ==>
          && sent[i].body == Canonical(RequestJson(sent[i].request))
          && sent[i].context == Client.ContextOf(p, sent[i].request))
    && (forall i, j :: 0 <= i < j < |sent| ==> sent[i].request.requestId != sent[j].request.requestId)
  }

  /** An acceptance is that of the request with index `i`. */
  ghost predicate IsAcceptanceOf(p: Platform, sent: seq<Sent>, a: Acceptance, i: nat)
  {
    i < |sent| && a.body == sent[i].body && a.request == AcceptedOf(p, sent[i].request)
  }

  /** A request whose window has dates with four-digit years is accepted inside it. */
  predicate InWindow(p: Platform, r: Server.Accepted, at: int)
  {
    && DateOf(p, r.issuedAt) <= at < DateOf(p, r.expiresAt)
    && FourDigitYear(DateOf(p, r.issuedAt)) && FourDigitYear(DateOf(p, r.expiresAt))
  }

  ghost predicate AcceptanceOk(p: Platform, sent: seq<Sent>, a: Acceptance, clock: int)
  {
    && (exists i :: IsAcceptanceOf(p, sent, a, i))
    && a.at <= clock && InWindow(p, a.request, a.at) && IsUuidV4(a.request.requestId)
  }

  /** Two acceptances have different request identifiers, and share a nonce only after the first expired. */
  ghost predicate Apart(p: Platform, a: Acceptance, b: Acceptance)
  {
    && a.request.requestId != b.request.requestId
    && (a.request.nonceDigest == b.request.nonceDigest ==> Expiry(p, a) <= b.at)
  }

  ghost predicate AcceptedOk(p: Platform, sent: seq<Sent>, accepted: seq<Acceptance>, clock: int)
  {
    && (forall j :: 0 <= j < |accepted| ==> AcceptanceOk(p, sent, accepted[j], clock))
    && (forall j, k :: 0 <= j < k < |accepted| ==> Apart(p, accepted[j], accepted[k]))
  }

  ghost predicate Holds(d: Durable, key: string, expiresAt: int)
  {
    key in d.held && d.held[key] == expiresAt
  }

  ghost predicate HoldsBoth(p: Platform, d: Durable, a: Acceptance)
  {
    && Holds(d, Server.RequestKey(a.request.requestId), Expiry(p, a))
    && Holds(d, Server.NonceKey(a.request.nonceDigest), Expiry(p, a))
  }

  ghost predicate HeldOk(p: Platform, store: Durable, accepted: seq<Acceptance>, clock: int)
  {
    && StoreInvariant(store) && 0 <= clock
    && (forall j :: 0 <= j < |accepted| && Expiry(p, accepted[j]) > clock ==> HoldsBoth(p, store, accepted[j]))
  }

  /** The acceptances whose window is open. */
  ghost function Open(p: Platform, accepted: seq<Acceptance>, clock: int): set<nat>
  {
    set j: nat | j < |accepted| && Expiry(p, accepted[j]) > clock
  }

  /** An attestation repeats the acceptance it answers. */
  predicate Repeats(a: Attestation, r: Server.Accepted)
  {
    && a.requestId == r.requestId && a.nonceDigest == r.nonceDigest && a.operation == r.operation
    && a.scopeDigest == r.scopeDigest && a.payloadDigest == r.payloadDigest && a.expiresAt == r.expiresAt
  }

  /** Some observation makes `evaluate` return this report for the request. */
  ghost predicate Evaluates(c: Server.Config, r: Server.Accepted, report: Json)
  {
    exists observed :: Server.Evaluate(c, r, observed) == Server.Report(report)
  }

  ghost predicate ReportsOk(c: Server.Config, accepted: seq<Acceptance>, inFlight: set<nat>, reports: map<nat, Json>)
  {
    && (forall i :: i in inFlight ==> i < |accepted|)
    && (forall i :: i in reports ==> i < |accepted| && Evaluates(c, accepted[i].request, reports[i]))
  }

  /** A signed attestation answers an acceptance that is no longer in flight, with the report made for it. */
  ghost predicate AnswerOk(accepted: seq<Acceptance>, inFlight: set<nat>, reports: map<nat, Json>, x: Signed)
  {
    && x.source < |accepted| && x.source !in inFlight
    && x.source in reports && reports[x.source] == x.report
    && Repeats(x.attestation, accepted[x.source].request)
    && x.body == Canonical(AttestationJson(x.attestation, x.report))
  }

  ghost predicate SignedOk(accepted: seq<Acceptance>, inFlight: set<nat>, reports: map<nat, Json>, signed: seq<Signed>)
  {
    && (forall m :: 0 <= m < |signed| ==> AnswerOk(accepted, inFlight, reports, signed[m]))
    && (forall m, n :: 0 <= m < n < |signed| ==>
          && signed[m].source != signed[n].source
          && signed[m].attestation.attestationId != signed[n].attestation.attestationId)
  }

  predicate Echoes(a: Attestation, c: Context)
  {
    && a.requestId == c.requestId && a.nonceDigest == c.nonceDigest && a.operation == c.operation
    && a.scopeDigest == c.scopeDigest && a.payloadDigest == c.payloadDigest
  }

  /** What the client accepted is what the server signed with index `m`, and answers the request it was taken for. */
  ghost predicate IsDeliveryOf(sent: seq<Sent>, signed: seq<Signed>, d: Delivery, m: nat)
  {
    && m < |signed| && d.sent < |sent|
    && d.verified == Client.Verified(signed[m].report, signed[m].attestation)
    && Echoes(signed[m].attestation, sent[d.sent].context)
  }

  ghost predicate DeliveryOk(p: Platform, sent: seq<Sent>, signed: seq<Signed>, d: Delivery)
  {
    && (exists m :: IsDeliveryOf(sent, signed, d, m))
    && DateOf(p, d.verified.attestation.attestedAt) <= d.at < DateOf(p, d.verified.attestation.expiresAt)
  }

  ghost predicate DeliveredOk(p: Platform, sent: seq<Sent>, signed: seq<Signed>, delivered: seq<Delivery>)
  {
    && (forall d :: 0 <= d < |delivered| ==> DeliveryOk(p, sent, signed, delivered[d]))
    && (forall d, e :: 0 <= d < e < |delivered| ==>
          delivered[d].verified.attestation.attestationId != delivered[e].verified.attestation.attestationId)
  }

  ghost predicate GuardOk(p: Platform, delivered: seq<Delivery>, guard: map<string, int>, clock: int)
  {
    forall d :: 0 <= d < |delivered| ==>
      var a := delivered[d].verified.attestation;
      DateOf(p, a.expiresAt) > clock ==>
        a.attestationId in guard && guard[a.attestationId] == DateOf(p, a.expiresAt)
  }

  ghost predicate Invariant(u: Setup, s: State)
  {
    && SentOk(u.platform, s.sent)
    && AcceptedOk(u.platform, s.sent, s.accepted, s.clock)
    && HeldOk(u.platform, s.store, s.accepted, s.clock)
    && 2 * |Open(u.platform, s.accepted, s.clock)| <= u.config.replayEntries
    && ReportsOk(u.config, s.accepted, s.inFlight, s.reports)
    && SignedOk(s.accepted, s.inFlight, s.reports, s.signed)
    && DeliveredOk(u.platform, s.sent, s.signed, s.delivered)
    && GuardOk(u.platform, s.delivered, s.guard, s.clientClock)
  }

  // ---- Time, and the client's sending ----

  lemma TickKeeps(u: Setup, s: State, to: int)
    requires Invariant(u, s) && s.clock <= to
    ensures Invariant(u, s.(clock := to))
  {
    hide SentOk, ReportsOk, SignedOk, DeliveredOk, IsUuidV4, StoreInvariant;
    var p := u.platform;
    assert Open(p, s.accepted, to) <= Open(p, s.accepted, s.clock);
    Collections.SubsetSize(Open(p, s.accepted, to), Open(p, s.accepted, s.clock));
  }

  lemma ClientTickKeeps(u: Setup, s: State, to: int)
    requires Invariant(u, s) && s.clientClock <= to
    ensures Invariant(u, s.(clientClock := to))
  {
    hide SentOk, AcceptedOk, HeldOk, Open, ReportsOk, SignedOk, DeliveredOk;
  }

  lemma AcceptanceKeeps(p: Platform, sent: seq<Sent>, x: Sent, a: Acceptance, clock: int)
    requires AcceptanceOk(p, sent, a, clock)
    ensures AcceptanceOk(p, sent + [x], a, clock)
  {
    var i :| IsAcceptanceOf(p, sent, a, i);
    assert IsAcceptanceOf(p, sent + [x], a, i);
  }

  lemma DeliveryKeeps(p: Platform, sent: seq<Sent>, signed: seq<Signed>, d: Delivery, moreSent: seq<Sent>,
    moreSigned: seq<Signed>)
    requires DeliveryOk(p, sent, signed, d)
    ensures DeliveryOk(p, sent + moreSent, signed + moreSigned, d)
  {
    var m :| IsDeliveryOf(sent, signed, d, m);
    assert IsDeliveryOf(sent + moreSent, signed + moreSigned, d, m);
  }

  lemma SendKeeps(u: Setup, s: State, operation: string, scope: Json, payload: Json, requestId: string,
    nonceBytes: seq<Byte>)
    requires Invariant(u, s) && FreshRequestId(s, requestId)
    ensures Invariant(u, Send(u, s, operation, scope, payload, requestId, nonceBytes))
  {
    hide Client.BuildRequest, Canonical, RequestJson, AcceptanceOk, Apart, HeldOk, Open, ReportsOk, SignedOk;
    hide DeliveryOk;
    hide GuardOk;
    var p := u.platform;
    var r := Client.BuildRequest(p, operation, scope, payload, Some(s.clientClock), requestId, nonceBytes);
    if r.Ok? {
      BuiltFields(p, operation, scope, payload, s.clientClock, requestId, nonceBytes);
      var x := Sent(r.value.request, r.value.body, r.value.context);
      forall j | 0 <= j < |s.accepted|
        ensures AcceptanceOk(p, s.sent + [x], s.accepted[j], s.clock)
      {
        AcceptanceKeeps(p, s.sent, x, s.accepted[j], s.clock);
      }
      forall d | 0 <= d < |s.delivered|
        ensures DeliveryOk(p, s.sent + [x], s.signed, s.delivered[d])
      {
        DeliveryKeeps(p, s.sent, s.signed, s.delivered[d], [x], []);
        assert s.signed + [] == s.signed;
      }
    }
  }

  // ---- The server's acceptance ----

  /** Whatever admission answers, unexpired keys stay, and what it leaves fits. */
  lemma AdmitKeysSafe(
    d: Durable, max: int, requestId: string, nonceDigest: string, expiresAt: int, now: int, w1: Write, w2: Write)
    requires StoreInvariant(d)
    ensures var (ok, d') := Server.AdmitKeys(d, max, true, requestId, nonceDigest, expiresAt, now, w1, w2);
      && StoreInvariant(d')
      && (forall k :: k in d.held && d.held[k] > now ==> k in d'.held && d'.held[k] == d.held[k])
      && (ok ==> Holds(d', Server.NonceKey(nonceDigest), expiresAt) && |d'.held| <= max)
      && (ok && expiresAt > now && Server.RequestKey(requestId) != Server.NonceKey(nonceDigest) ==>
            Holds(d', Server.RequestKey(requestId), expiresAt))
      && (ok ==> (Server.RequestKey(requestId) in d.held ==> d.held[Server.RequestKey(requestId)] <= now))
      && (ok ==> (Server.NonceKey(nonceDigest) in d.held ==> d.held[Server.NonceKey(nonceDigest)] <= now))
  {
    hide Line, KeyOk, ByteLength, StoreInvariant;
    var k1, k2 := Server.RequestKey(requestId), Server.NonceKey(nonceDigest);
    hide Server.RequestKey, Server.NonceKey;
    var (first, d1) := AdmitDurable(d, max, true, k1, expiresAt, now, w1);
    StepKeepsFile(max, d, k1, expiresAt, now, w1);
    AdmitAnswer(d, max, k1, expiresAt, now, w1);
    if first {
      StepKeepsFile(max, d1, k2, expiresAt, now, w2);
      AdmitAnswer(d1, max, k2, expiresAt, now, w2);
      AdmitFits(d1, max, k2, expiresAt, now, w2);
    }
  }

  lemma AdmitFits(d: Durable, max: int, key: string, expiresAt: int, now: int, write: Write)
    ensures AdmitDurable(d, max, true, key, expiresAt, now, write).0 ==>
      |AdmitDurable(d, max, true, key, expiresAt, now, write).1.held| <= max
  {
  }

  /** A set whose members each own two keys has at most half as many members as there are keys. */
  lemma {:induction false} TwoKeysEach(s: set<nat>, f: nat -> string, g: nat -> string, keys: set<string>)
    requires forall i :: i in s ==> f(i) in keys && g(i) in keys
    requires forall i, j :: i in s && j in s ==> f(i) != g(j)
    requires forall i, j :: i in s && j in s && i != j ==> f(i) != f(j) && g(i) != g(j)
    ensures 2 * |s| <= |keys|
  {
    if s != {} {
      var x :| x in s;
      TwoKeysEach(s - {x}, f, g, keys - {f(x)} - {g(x)});
    }
  }

  lemma KeysInjective(a: string, b: string)
    ensures Server.RequestKey(a) == Server.RequestKey(b) ==> a == b
    ensures Server.NonceKey(a) == Server.NonceKey(b) ==> a == b
    ensures Server.RequestKey(a) != Server.NonceKey(b)
  {
    assert Server.RequestKey(a)[8..] == a && Server.RequestKey(b)[8..] == b;
    assert Server.NonceKey(a)[6..] == a && Server.NonceKey(b)[6..] == b;
    assert Server.RequestKey(a)[0] == 'r' && Server.NonceKey(b)[0] == 'n';
  }

  /** Two open acceptances share neither an identifier nor a nonce. */
  lemma OpenDistinct(p: Platform, sent: seq<Sent>, accepted: seq<Acceptance>, clock: int, i: nat, j: nat)
    requires AcceptedOk(p, sent, accepted, clock)
    requires i in Open(p, accepted, clock) && j in Open(p, accepted, clock)
    requires accepted[i].request.requestId == accepted[j].request.requestId
          || accepted[i].request.nonceDigest == accepted[j].request.nonceDigest
    ensures i == j
  {
    hide IsAcceptanceOf, IsUuidV4;
    var a, b := accepted[i], accepted[j];
  }

  function RequestKeyAt(accepted: seq<Acceptance>, j: nat): string
  {
    if j < |accepted| then Server.RequestKey(accepted[j].request.requestId) else ""
  }

  function NonceKeyAt(accepted: seq<Acceptance>, j: nat): string
  {
    if j < |accepted| then Server.NonceKey(accepted[j].request.nonceDigest) else ""
  }

  /** Every open acceptance holds two keys of its own. */
  lemma OpenFits(p: Platform, sent: seq<Sent>, accepted: seq<Acceptance>, store: Durable, clock: int)
    requires AcceptedOk(p, sent, accepted, clock) && HeldOk(p, store, accepted, clock)
    ensures 2 * |Open(p, accepted, clock)| <= |store.held|
  {
    hide StoreInvariant, Server.RequestKey, Server.NonceKey, AcceptedOk;
    var open := Open(p, accepted, clock);
    var f := (j: nat) => RequestKeyAt(accepted, j);
    var g := (j: nat) => NonceKeyAt(accepted, j);
    forall i, j | i in open && j in open && (f(i) == f(j) || g(i) == g(j))
      ensures i == j
    {
      KeysInjective(accepted[i].request.requestId, accepted[j].request.requestId);
      KeysInjective(accepted[i].request.nonceDigest, accepted[j].request.nonceDigest);
      OpenDistinct(p, sent, accepted, clock, i, j);
    }
    forall i, j | i in open && j in open
      ensures f(i) != g(j)
    {
      KeysInjective(accepted[i].request.requestId, accepted[j].request.nonceDigest);
    }
    TwoKeysEach(open, f, g, store.held.Keys);
  }

  lemma VerifyRequestCases(
    p: Platform, operation: string, body: string, authorization: Option<string>, verifies: bool, now: int,
    d: Durable, max: int, w1: Write, w2: Write)
    ensures var e := Server.Examine(p, operation, body, authorization, verifies, Some(now));
      var (verdict, d') := Server.VerifyRequest(
        p, operation, body, authorization, verifies, Some(now), d, max, true, w1, w2);
      if e.Admitted? then
        var keys := Server.AdmitKeys(d, max, true, e.request.requestId, e.request.nonceDigest,
          DateOf(p, e.request.expiresAt), now, w1, w2);
        d' == keys.1 && (keys.0 ==> verdict == e) && (!keys.0 ==> verdict.Rejected?)
      else d' == d && verdict == e
  {
    hide Server.Examine, Server.AdmitKeys;
  }

  lemma AdmittedVerifies(p: Platform, operation: string, body: string, authorization: Option<string>, verifies: bool,
    now: int)
    ensures Server.Examine(p, operation, body, authorization, verifies, Some(now)).Admitted? ==> verifies
  {
    hide Parse, Canonical, ParseCanonical, Server.CheckEnvelope, ByteLength;
  }

  /** The body of an admitted request is one the client sent, and the admitted request is that one. */
  lemma AdmittedWasSent(u: Setup, s: State, operation: string, body: string, authorization: Option<string>,
    verifies: bool) returns (i: nat)
    requires SentOk(u.platform, s.sent) && SignedOk(s.accepted, s.inFlight, s.reports, s.signed) && Sound(u.platform)
    requires verifies ==> WasSigned(s, body)
    requires Server.Examine(u.platform, operation, body, authorization, verifies, Some(s.clock)).Admitted?
    ensures i < |s.sent| && body == s.sent[i].body
    ensures var r := Server.Examine(u.platform, operation, body, authorization, verifies, Some(s.clock)).request;
      && r == AcceptedOf(u.platform, s.sent[i].request)
      && InWindow(u.platform, r, s.clock) && IsUuidV4(r.requestId)
  {
    hide Server.Examine, Canonical, RequestJson, AttestationJson, IsUuidV4, IsTimestamp, IsNonce, IsHash;
    var p := u.platform;
    AdmittedVerifies(p, operation, body, authorization, verifies, s.clock);
    if m :| 0 <= m < |s.signed| && s.signed[m].body == body {
      assert AnswerOk(s.accepted, s.inFlight, s.reports, s.signed[m]);
      AttestationNotAdmitted(p, s.signed[m].attestation, s.signed[m].report, operation, authorization, verifies,
        Some(s.clock));
      assert false;
    } else {
      i :| 0 <= i < |s.sent| && s.sent[i].body == body;
      AdmittedAsSent(p, s.sent[i].request, operation, authorization, verifies, Some(s.clock));
    }
  }

  /** A request that is admitted shares its identifier with no earlier acceptance, and its nonce with no open one. */
  lemma AdmittedApart(
    p: Platform, sent: seq<Sent>, accepted: seq<Acceptance>, store: Durable, clock: int, i: nat, j: nat)
    requires SentOk(p, sent) && AcceptedOk(p, sent, accepted, clock) && HeldOk(p, store, accepted, clock)
    requires i < |sent| && j < |accepted|
    requires var r := AcceptedOf(p, sent[i].request);
      && DateOf(p, r.expiresAt) > clock
      && (Server.RequestKey(r.requestId) in store.held ==> store.held[Server.RequestKey(r.requestId)] <= clock)
      && (Server.NonceKey(r.nonceDigest) in store.held ==> store.held[Server.NonceKey(r.nonceDigest)] <= clock)
    ensures Apart(p, accepted[j], Acceptance(AcceptedOf(p, sent[i].request), sent[i].body, clock))
  {
    hide StoreInvariant, Server.RequestKey, Server.NonceKey, IsUuidV4, Canonical, RequestJson, Client.ContextOf;
    assert AcceptanceOk(p, sent, accepted[j], clock);
    var i' :| IsAcceptanceOf(p, sent, accepted[j], i');
    if accepted[j].request.requestId == sent[i].request.requestId {
      assert false;
    }
  }

  lemma ReceiveKeeps(u: Setup, s: State, operation: string, body: string, authorization: Option<string>,
    verifies: bool, w1: Write, w2: Write)
    requires Sound(u.platform) && Invariant(u, s) && (verifies ==> WasSigned(s, body))
    ensures Invariant(u, Receive(u, s, operation, body, authorization, verifies, w1, w2))
  {
    hide Server.Examine, Server.AdmitKeys, Server.VerifyRequest, Server.RequestKey, Server.NonceKey, WasSigned;
    hide DeliveredOk, GuardOk, AcceptedOf, IsUuidV4;
    var p, max := u.platform, u.config.replayEntries;
    var e := Server.Examine(p, operation, body, authorization, verifies, Some(s.clock));
    VerifyRequestCases(p, operation, body, authorization, verifies, s.clock, s.store, max, w1, w2);
    if e.Admitted? {
      var i := AdmittedWasSent(u, s, operation, body, authorization, verifies);
      var r := e.request;
      var (ok, store) := Server.AdmitKeys(s.store, max, true, r.requestId, r.nonceDigest, DateOf(p, r.expiresAt),
        s.clock, w1, w2);
      AdmitKeysSafe(s.store, max, r.requestId, r.nonceDigest, DateOf(p, r.expiresAt), s.clock, w1, w2);
      KeysInjective(r.requestId, r.nonceDigest);
      HeldStays(p, s.store, store, s.accepted, s.clock);
      if ok {
        AcceptKeeps(u, s, Acceptance(r, body, s.clock), store, i);
      }
    }
  }

  lemma HeldStays(p: Platform, store: Durable, store': Durable, accepted: seq<Acceptance>, clock: int)
    requires HeldOk(p, store, accepted, clock) && StoreInvariant(store')
    requires forall k :: k in store.held && store.held[k] > clock ==>
      k in store'.held && store'.held[k] == store.held[k]
    ensures HeldOk(p, store', accepted, clock)
  {
    hide StoreInvariant, Server.RequestKey, Server.NonceKey;
  }

  lemma AcceptKeeps(u: Setup, s: State, a: Acceptance, store: Durable, i: nat)
    requires Invariant(u, s) && HeldOk(u.platform, store, s.accepted, s.clock)
    requires IsAcceptanceOf(u.platform, s.sent, a, i) && a.at == s.clock
    requires InWindow(u.platform, a.request, a.at) && IsUuidV4(a.request.requestId)
    requires HoldsBoth(u.platform, store, a) && |store.held| <= u.config.replayEntries
    requires Server.RequestKey(a.request.requestId) in s.store.held ==>
      s.store.held[Server.RequestKey(a.request.requestId)] <= s.clock
    requires Server.NonceKey(a.request.nonceDigest) in s.store.held ==>
      s.store.held[Server.NonceKey(a.request.nonceDigest)] <= s.clock
    ensures Invariant(u, s.(store := store, accepted := s.accepted + [a], inFlight := s.inFlight + {|s.accepted|}))
  {
    hide Server.RequestKey, Server.NonceKey, DeliveredOk, GuardOk, IsUuidV4, AcceptedOf, StoreInvariant, HoldsBoth;
    hide ReportsOk, SignedOk, AcceptedOk, HeldOk, Open, SentOk;
    var p := u.platform;
    var accepted := s.accepted + [a];
    assert AcceptanceOk(p, s.sent, a, s.clock);
    forall j | 0 <= j < |s.accepted|
      ensures Apart(p, s.accepted[j], a)
    {
      AdmittedApart(p, s.sent, s.accepted, s.store, s.clock, i, j);
    }
    AcceptedAppend(p, s.sent, s.accepted, a, s.clock);
    HeldAppend(p, store, s.accepted, a, s.clock);
    OpenFits(p, s.sent, accepted, store, s.clock);
    AnswersAppend(u.config, s.accepted, a, s.inFlight, s.reports, s.signed);
  }

  lemma AcceptedAppend(p: Platform, sent: seq<Sent>, accepted: seq<Acceptance>, a: Acceptance, clock: int)
    requires AcceptedOk(p, sent, accepted, clock) && AcceptanceOk(p, sent, a, clock)
    requires forall j :: 0 <= j < |accepted| ==> Apart(p, accepted[j], a)
    ensures AcceptedOk(p, sent, accepted + [a], clock)
  {
    hide AcceptanceOk, Apart;
  }

  lemma HeldAppend(p: Platform, store: Durable, accepted: seq<Acceptance>, a: Acceptance, clock: int)
    requires HeldOk(p, store, accepted, clock) && HoldsBoth(p, store, a)
    ensures HeldOk(p, store, accepted + [a], clock)
  {
    hide HoldsBoth, StoreInvariant;
  }

  lemma AnswersAppend(c: Server.Config, accepted: seq<Acceptance>, a: Acceptance, inFlight: set<nat>,
    reports: map<nat, Json>, signed: seq<Signed>)
    requires ReportsOk(c, accepted, inFlight, reports) && SignedOk(accepted, inFlight, reports, signed)
    ensures ReportsOk(c, accepted + [a], inFlight + {|accepted|}, reports)
    ensures SignedOk(accepted + [a], inFlight + {|accepted|}, reports, signed)
  {
    hide Evaluates, Repeats, Canonical, AttestationJson;
  }

  // ---- Evaluation, attestation, restart ----

  lemma EvaluateKeeps(u: Setup, s: State, index: nat, observed: Server.Outcome)
    requires Invariant(u, s) && index in s.inFlight && index !in s.reports && index < |s.accepted|
    ensures Invariant(u, Evaluated(u, s, index, observed))
  {
    hide SentOk, AcceptedOk, HeldOk, Open, DeliveredOk, GuardOk, Repeats, Canonical, AttestationJson, Server.Evaluate;
    var outcome := Server.Evaluate(u.config, s.accepted[index].request, observed);
    match outcome
    case Report(report) => assert Evaluates(u.config, s.accepted[index].request, report);
    case Refused(_) =>
  }

  lemma AttestationRepeats(p: Platform, r: Server.Accepted, report: Json, now: int, attestationId: string)
    requires Server.BuildAttestation(p, r, report, Some(now), attestationId).Ok?
    ensures var built := Server.BuildAttestation(p, r, report, Some(now), attestationId).value;
      && Repeats(built.attestation, r) && built.report == report && built.attestation.attestationId == attestationId
      && built.body == Canonical(AttestationJson(built.attestation, report))
  {
    hide Canonical, AttestationJson, ByteLength, IsUuidV4;
  }

  lemma AttestKeeps(u: Setup, s: State, index: nat, attestationId: string)
    requires Invariant(u, s) && FreshAttestationId(s, attestationId)
    requires index in s.inFlight && index in s.reports && index < |s.accepted|
    ensures Invariant(u, Attest(u, s, index, attestationId))
  {
    hide SentOk, AcceptedOk, HeldOk, Open, DeliveryOk, GuardOk, Repeats, Canonical, AttestationJson, Evaluates;
    hide Server.BuildAttestation;
    var p := u.platform;
    var built := Server.BuildAttestation(p, s.accepted[index].request, s.reports[index], Some(s.clock), attestationId);
    if built.Ok? {
      AttestationRepeats(p, s.accepted[index].request, s.reports[index], s.clock, attestationId);
      var x := Signed(index, built.value.report, built.value.attestation, built.value.body);
      assert forall m :: 0 <= m < |s.signed| ==> AnswerOk(s.accepted, s.inFlight, s.reports, s.signed[m]);
      forall d | 0 <= d < |s.delivered|
        ensures DeliveryOk(p, s.sent, s.signed + [x], s.delivered[d])
      {
        DeliveryKeeps(p, s.sent, s.signed, s.delivered[d], [], [x]);
        assert s.sent + [] == s.sent;
      }
    }
  }

  lemma RestartKeepsKey(store: Durable, clock: int, key: string, expiresAt: int)
    requires StoreInvariant(store) && Holds(store, key, expiresAt)
    requires key != "" && 0 <= clock < expiresAt && FourDigitYear(expiresAt)
    ensures key in Reloaded(store, clock) && Reloaded(store, clock)[key] == expiresAt
  {
    hide Pow10;
    TenToFifteen();
    LoadLastLine(store.log, clock, key);
  }

  lemma RestartKeeps(u: Setup, s: State, order: seq<string>)
    requires Invariant(u, s) && ListsKeys(order, Reloaded(s.store, s.clock).Keys)
    ensures Invariant(u, s.(store := Restart(s.store, s.clock, order), inFlight := {}))
  {
    hide SentOk, Open, DeliveredOk, GuardOk, Repeats, Canonical, AttestationJson, Evaluates, IsAcceptanceOf, IsUuidV4;
    hide Reloaded, Apart;
    var p, store := u.platform, Restart(s.store, s.clock, order);
    RestartKeepsFile(s.store, s.clock, order);
    hide StoreInvariant;
    forall j | 0 <= j < |s.accepted| && Expiry(p, s.accepted[j]) > s.clock
      ensures HoldsBoth(p, store, s.accepted[j])
    {
      var a := s.accepted[j];
      assert AcceptanceOk(p, s.sent, a, s.clock);
      assert HoldsBoth(p, s.store, a);
      RestartKeepsKey(s.store, s.clock, Server.RequestKey(a.request.requestId), Expiry(p, a));
      RestartKeepsKey(s.store, s.clock, Server.NonceKey(a.request.nonceDigest), Expiry(p, a));
    }
    assert forall m :: 0 <= m < |s.signed| ==> AnswerOk(s.accepted, s.inFlight, s.reports, s.signed[m]);
  }

  // ---- The client's acceptance ----

  /** A response the client accepts is one the server signed, for the request it was taken for. */
  lemma AcceptedWasSigned(u: Setup, s: State, index: nat, body: string, verifies: bool) returns (m: nat)
    requires SentOk(u.platform, s.sent) && SignedOk(s.accepted, s.inFlight, s.reports, s.signed)
    requires index < |s.sent| && (verifies ==> WasSigned(s, body))
    requires Client.ExamineResponse(u.platform, body, verifies, s.sent[index].context, Some(s.clientClock)).Ok?
    ensures
      var v := Client.ExamineResponse(u.platform, body, verifies, s.sent[index].context, Some(s.clientClock)).value;
      && IsDeliveryOf(s.sent, s.signed, Delivery(index, v, s.clientClock), m)
      && DeliveryOk(u.platform, s.sent, s.signed, Delivery(index, v, s.clientClock))
      && s.clientClock < DateOf(u.platform, v.attestation.expiresAt)
  {
    var p, c := u.platform, s.sent[index].context;
    assert verifies by {
      hide Parse, Canonical, ParseCanonical, Client.CheckAttestation, Client.ValidContext, Client.TimelineError;
    }
    hide Client.ExamineResponse, Canonical, RequestJson, AttestationJson, Repeats;
    assert !exists i :: 0 <= i < |s.sent| && s.sent[i].body == body by {
      if i :| 0 <= i < |s.sent| && s.sent[i].body == body {
        RequestNotResponse(p, s.sent[i].request, verifies, c, Some(s.clientClock));
        assert false;
      }
    }
    m :| 0 <= m < |s.signed| && s.signed[m].body == body;
    assert AnswerOk(s.accepted, s.inFlight, s.reports, s.signed[m]);
    ResponseAsAttested(p, s.signed[m].attestation, s.signed[m].report, verifies, c, Some(s.clientClock));
    assert IsDeliveryOf(s.sent, s.signed,
      Delivery(index, Client.Verified(s.signed[m].report, s.signed[m].attestation), s.clientClock), m);
  }

  lemma VerifyResponseCases(
    p: Platform, body: string, verifies: bool, c: Context, now: int, held: map<string, int>, max: int)
    ensures var e := Client.ExamineResponse(p, body, verifies, c, Some(now));
      var (result, held') := Client.VerifyResponse(p, body, verifies, c, Some(now), held, max);
      if e.Ok? then
        var a := AdmitKey(held, max, e.value.attestation.attestationId, DateOf(p, e.value.attestation.expiresAt), now);
        held' == a.held && (if a.ok then result == e else result.Err?)
      else result.Err? && held' == held
  {
    hide Client.ExamineResponse, AdmitKey;
  }

  /** An accepted attestation was not accepted before: the guard still holds what is not expired. */
  lemma AcceptedOnce(p: Platform, sent: seq<Sent>, signed: seq<Signed>, delivered: seq<Delivery>,
    guard: map<string, int>, clock: int, x: Delivery, m: nat, d: nat, max: int)
    requires DeliveredOk(p, sent, signed, delivered) && GuardOk(p, delivered, guard, clock)
    requires forall i, j :: 0 <= i < j < |signed| ==>
      signed[i].attestation.attestationId != signed[j].attestation.attestationId
    requires IsDeliveryOf(sent, signed, x, m) && d < |delivered|
    requires clock < DateOf(p, x.verified.attestation.expiresAt)
    requires AdmitKey(guard, max, x.verified.attestation.attestationId,
      DateOf(p, x.verified.attestation.expiresAt), clock).ok
    ensures delivered[d].verified.attestation.attestationId != x.verified.attestation.attestationId
  {
    assert DeliveryOk(p, sent, signed, delivered[d]);
    var n: nat :| IsDeliveryOf(sent, signed, delivered[d], n);
    assert signed[n].attestation.attestationId == signed[m].attestation.attestationId ==> n == m;
  }

  lemma AnswerKeeps(u: Setup, s: State, index: nat, body: string, verifies: bool)
    requires Invariant(u, s) && index < |s.sent| && (verifies ==> WasSigned(s, body))
    ensures Invariant(u, Answered(u, s, index, body, verifies))
  {
    hide Client.ExamineResponse, Client.VerifyResponse, AdmitKey, AcceptedOk, HeldOk, Open, ReportsOk, AnswerOk;
    var p, c := u.platform, s.sent[index].context;
    var e := Client.ExamineResponse(p, body, verifies, c, Some(s.clientClock));
    VerifyResponseCases(p, body, verifies, c, s.clientClock, s.guard, u.guardEntries);
    if e.Ok? {
      var m := AcceptedWasSigned(u, s, index, body, verifies);
      hide SentOk, DeliveryOk, WasSigned, IsDeliveryOf;
      var x := Delivery(index, e.value, s.clientClock);
      var a := e.value.attestation;
      var admission := AdmitKey(s.guard, u.guardEntries, a.attestationId, DateOf(p, a.expiresAt), s.clientClock);
      GuardKeeps(p, s.delivered, s.guard, s.clientClock, x, u.guardEntries);
      if admission.ok {
        forall d | 0 <= d < |s.delivered|
          ensures s.delivered[d].verified.attestation.attestationId != a.attestationId
        {
          AcceptedOnce(p, s.sent, s.signed, s.delivered, s.guard, s.clientClock, x, m, d, u.guardEntries);
        }
      }
    }
  }

  lemma GuardKeeps(p: Platform, delivered: seq<Delivery>, guard: map<string, int>, clock: int, x: Delivery, max: int)
    requires GuardOk(p, delivered, guard, clock)
    ensures var a := x.verified.attestation;
      var admission := AdmitKey(guard, max, a.attestationId, DateOf(p, a.expiresAt), clock);
      && GuardOk(p, delivered, admission.held, clock)
      && (admission.ok ==> GuardOk(p, delivered + [x], admission.held, clock))
  {
  }

  // ---- Every run ----

  lemma StepKeeps(u: Setup, s: State, e: Event)
    requires Sound(u.platform) && Invariant(u, s)
    ensures Invariant(u, Step(u, s, e))
  {
    hide Invariant, Send, Receive, Evaluated, Attest, Answered, WasSigned, FreshRequestId, FreshAttestationId;
    hide ListsKeys, Restart, Reloaded;
    match e
    case Tick(to) =>
      if s.clock <= to { TickKeeps(u, s, to); }
    case ClientTick(to) =>
      if s.clientClock <= to { ClientTickKeeps(u, s, to); }
    case ClientSend(operation, scope, payload, requestId, nonceBytes) =>
      if FreshRequestId(s, requestId) { SendKeeps(u, s, operation, scope, payload, requestId, nonceBytes); }
    case ServerReceive(operation, body, authorization, verifies, w1, w2) =>
      if verifies ==> WasSigned(s, body) { ReceiveKeeps(u, s, operation, body, authorization, verifies, w1, w2); }
    case ServerEvaluate(index, observed) =>
      if index in s.inFlight && index !in s.reports && index < |s.accepted| { EvaluateKeeps(u, s, index, observed); }
    case ServerAttest(index, attestationId) =>
      if index in s.inFlight && index in s.reports && index < |s.accepted| && FreshAttestationId(s, attestationId) {
        AttestKeeps(u, s, index, attestationId);
      }
    case ServerRestart(order) =>
      if ListsKeys(order, Reloaded(s.store, s.clock).Keys) { RestartKeeps(u, s, order); }
    case ClientReceive(index, body, verifies) =>
      if index < |s.sent| && (verifies ==> WasSigned(s, body)) { AnswerKeeps(u, s, index, body, verifies); }
  }

  /** A server on a store it has opened, before any message. */
  ghost predicate Starts(u: Setup, start: State)
  {
    && Sound(u.platform) && 0 <= u.config.replayEntries
    && start == Init(start.store, start.clock, start.clientClock) && StoreInvariant(start.store) && 0 <= start.clock
  }

  lemma {:induction false} RunKeeps(u: Setup, start: State, events: seq<Event>)
    requires Starts(u, start)
    ensures Invariant(u, Run(u, start, events))
  {
    if events == [] {
      assert Open(u.platform, start.accepted, start.clock) == {};
    } else {
      hide Invariant, Step;
      var n := |events| - 1;
      RunKeeps(u, start, events[..n]);
      StepKeeps(u, Run(u, start, events[..n]), events[n]);
    }
  }
}
