/** The main results about the release verifier protocol v2: what holds in every state of every run. */
module VerifierTheorems {
  import opened Wrappers
  import opened Unicode
  import opened JsonText
  import opened JsonRoundTrip
  import opened ReplayStore
  import opened VerifierEnvelope
  import opened VerifierCalls
  import opened VerifierSystem
  import opened VerifierSafety
  import Server = VerifierServer
  import Client = VerifierClient

  /** Acceptance `j` is of the request with index `i`: the same identifiers, scope, payload and body, in its window. */
  ghost predicate Agrees(p: Platform, sent: seq<Sent>, accepted: seq<Acceptance>, i: nat, j: nat)
  {
    && i < |sent| && j < |accepted|
    && var q := sent[i].request; var c := sent[i].context; var a := accepted[j];
    && a.request.requestId == c.requestId && a.request.nonceDigest == c.nonceDigest
    && a.request.operation == c.operation && a.request.scopeDigest == c.scopeDigest
    && a.request.payloadDigest == c.payloadDigest
    && a.request.scope == q.scope && a.request.payload == q.payload
    && a.body == sent[i].body && a.at < DateOf(p, c.expiresAt)
  }

  lemma SameSent(p: Platform, sent: seq<Sent>, i: nat, k: nat)
    requires SentOk(p, sent) && i < |sent| && k < |sent|
    requires sent[i].request.requestId == sent[k].context.requestId
    ensures i == k && sent[k].context == Client.ContextOf(p, sent[k].request)
  {
    hide Canonical, RequestJson;
  }

  lemma AcceptanceAgrees(p: Platform, sent: seq<Sent>, accepted: seq<Acceptance>, clock: int, k: nat, j: nat)
    requires SentOk(p, sent) && j < |accepted| && AcceptanceOk(p, sent, accepted[j], clock)
    requires k < |sent| && accepted[j].request.requestId == sent[k].context.requestId
    ensures Agrees(p, sent, accepted, k, j)
  {
    hide SentOk, IsUuidV4;
    var i: nat :| IsAcceptanceOf(p, sent, accepted[j], i);
    SameSent(p, sent, i, k);
  }

  /** The acceptance a delivered response answers. */
  lemma DeliverySource(u: Setup, s: State, d: nat) returns (m: nat)
    requires SignedOk(s.accepted, s.inFlight, s.reports, s.signed) && d < |s.delivered|
    requires DeliveredOk(u.platform, s.sent, s.signed, s.delivered)
    ensures m < |s.signed| && s.signed[m].source < |s.accepted| && s.delivered[d].sent < |s.sent|
    ensures s.accepted[s.signed[m].source].request.requestId == s.sent[s.delivered[d].sent].context.requestId
    ensures s.signed[m].source in s.reports && s.reports[s.signed[m].source] == s.delivered[d].verified.report
    ensures s.signed[m].attestation == s.delivered[d].verified.attestation
  {
    hide Canonical, AttestationJson;
    assert DeliveryOk(u.platform, s.sent, s.signed, s.delivered[d]);
    m :| IsDeliveryOf(s.sent, s.signed, s.delivered[d], m);
    assert AnswerOk(s.accepted, s.inFlight, s.reports, s.signed[m]);
  }

  /**
   Agreement. A response the client accepts for a request matches an acceptance of that very request by the server,
   and its report is what the server's evaluation returned for that acceptance.
   */
  lemma Agreement(u: Setup, start: State, events: seq<Event>, d: nat)
    requires Starts(u, start) && d < |Run(u, start, events).delivered|
    ensures var s := Run(u, start, events);
      exists j: nat ::
        && Agrees(u.platform, s.sent, s.accepted, s.delivered[d].sent, j)
        && j in s.reports && s.delivered[d].verified.report == s.reports[j]
        && Evaluates(u.config, s.accepted[j].request, s.delivered[d].verified.report)
  {
    hide Starts, Run, SentOk, AcceptanceOk, HeldOk, Open, SignedOk, DeliveredOk, GuardOk, Evaluates, Agrees, Apart;
    RunKeeps(u, start, events);
    var s := Run(u, start, events);
    var m := DeliverySource(u, s, d);
    var j := s.signed[m].source;
    AcceptanceAgrees(u.platform, s.sent, s.accepted, s.clock, s.delivered[d].sent, j);
    assert Agrees(u.platform, s.sent, s.accepted, s.delivered[d].sent, j);
  }

  lemma BodyDetermines(p: Platform, sent: seq<Sent>, a: Acceptance, b: Acceptance, clock: int)
    requires SentOk(p, sent) && AcceptanceOk(p, sent, a, clock) && AcceptanceOk(p, sent, b, clock)
    requires a.body == b.body
    ensures a.request.requestId == b.request.requestId
  {
    hide Canonical, RequestJson, IsUuidV4;
    var i: nat :| IsAcceptanceOf(p, sent, a, i);
    var k: nat :| IsAcceptanceOf(p, sent, b, k);
    CanonicalExactly(a.body, RequestJson(sent[i].request));
    CanonicalExactly(a.body, RequestJson(sent[k].request));
    RequestFields(sent[i].request);
    RequestFields(sent[k].request);
  }

  /**
   At most once. However messages are repeated and however often the server crashes and restarts, no body is
   accepted twice, no request identifier is, and a nonce only after its first acceptance expired.
   */
  lemma AcceptedAtMostOnce(u: Setup, start: State, events: seq<Event>, j: nat, k: nat)
    requires Starts(u, start) && j < k < |Run(u, start, events).accepted|
    ensures var s := Run(u, start, events);
      && s.accepted[j].body != s.accepted[k].body
      && s.accepted[j].request.requestId != s.accepted[k].request.requestId
      && (s.accepted[j].request.nonceDigest == s.accepted[k].request.nonceDigest ==>
            DateOf(u.platform, s.accepted[j].request.expiresAt) <= s.accepted[k].at)
  {
    hide Starts, Run, SentOk, AcceptanceOk, HeldOk, Open, ReportsOk, SignedOk, DeliveredOk, GuardOk;
    RunKeeps(u, start, events);
    var s := Run(u, start, events);
    assert Apart(u.platform, s.accepted[j], s.accepted[k]);
    if s.accepted[j].body == s.accepted[k].body {
      BodyDetermines(u.platform, s.sent, s.accepted[j], s.accepted[k], s.clock);
    }
  }

  /** Each request gets at most one accepted response. */
  lemma AnsweredAtMostOnce(u: Setup, start: State, events: seq<Event>, d: nat, e: nat)
    requires Starts(u, start) && d < e < |Run(u, start, events).delivered|
    ensures Run(u, start, events).delivered[d].sent != Run(u, start, events).delivered[e].sent
  {
    hide Starts, Run, SentOk, AcceptanceOk, HeldOk, Open, ReportsOk, GuardOk, AnswerOk, DeliveryOk;
    RunKeeps(u, start, events);
    var s := Run(u, start, events);
    var m := DeliverySource(u, s, d);
    var n := DeliverySource(u, s, e);
    var i, k := s.signed[m].source, s.signed[n].source;
    assert m != n;
    assert i != k;
    assert if i < k then Apart(u.platform, s.accepted[i], s.accepted[k])
           else Apart(u.platform, s.accepted[k], s.accepted[i]);
  }

  /** Bounded replay state: twice the accepted requests whose window is open never exceeds the store's entries. */
  lemma OpenRequestsBounded(u: Setup, start: State, events: seq<Event>)
    requires Starts(u, start)
    ensures 2 * |Open(u.platform, Run(u, start, events).accepted, Run(u, start, events).clock)|
         <= u.config.replayEntries
  {
    hide Starts, Run, Open;
    RunKeeps(u, start, events);
  }

  /** And none of their keys is evicted before it expires, by capacity, failed writes or a restart. */
  lemma OpenRequestsHeld(u: Setup, start: State, events: seq<Event>, j: nat)
    requires Starts(u, start) && j < |Run(u, start, events).accepted|
    requires var s := Run(u, start, events); DateOf(u.platform, s.accepted[j].request.expiresAt) > s.clock
    ensures var s := Run(u, start, events);
      && Server.RequestKey(s.accepted[j].request.requestId) in Live(s.store.held, s.clock)
      && Server.NonceKey(s.accepted[j].request.nonceDigest) in Live(s.store.held, s.clock)
  {
    hide Starts, Run, SentOk, AcceptedOk, Open, ReportsOk, SignedOk, DeliveredOk, GuardOk;
    RunKeeps(u, start, events);
    var s := Run(u, start, events);
    assert HoldsBoth(u.platform, s.store, s.accepted[j]);
  }

  /** The attestation window never closes: at any time the server can answer what it accepted, inside the window. */
  lemma WindowNeverCloses(u: Setup, start: State, events: seq<Event>, j: nat, report: Json, now: int, id: string)
    requires Starts(u, start) && j < |Run(u, start, events).accepted|
    ensures var r := Run(u, start, events).accepted[j].request;
      && Server.BuildAttestation(u.platform, r, report, Some(now), id)
           != Err("RELEASE_VERIFIER_ATTESTATION_WINDOW_CLOSED")
      && (Server.BuildAttestation(u.platform, r, report, Some(now), id).Ok? ==>
            var a := Server.BuildAttestation(u.platform, r, report, Some(now), id).value.attestation;
            DateOf(u.platform, r.issuedAt) <= DateOf(u.platform, a.attestedAt) < DateOf(u.platform, r.expiresAt))
  {
    assert Sound(u.platform);
    hide Starts, Run, SentOk, HeldOk, Open, ReportsOk, SignedOk, DeliveredOk, GuardOk, Apart, IsUuidV4, Sound;
    hide Server.BuildAttestation;
    RunKeeps(u, start, events);
    var s := Run(u, start, events);
    assert AcceptanceOk(u.platform, s.sent, s.accepted[j], s.clock);
    AttestationInWindow(u.platform, s.accepted[j].request, report, now, id);
  }

  lemma EvaluatesWithinPolicy(c: Server.Config, r: Server.Accepted, report: Json)
    requires Evaluates(c, r, report)
    ensures r.operation != "readiness" ==> Server.OriginAllowed(c, r.scope)
    ensures r.operation == "readiness" ==>
      && (c.acceptedDeployments == [] || Server.DeploymentKnown(c, r.scope))
      && report == Obj(map["mode" := Str(c.mode), "protocolVersion" := Num(2), "webMcpImplementation" := Str("native")])
  {
    var observed :| Server.Evaluate(c, r, observed) == Server.Report(report);
  }

  /**
   Policy. Over every run, a response the client accepts is about a target origin the server allows, or is the fixed
   readiness report for a deployment the server knows.
   */
  lemma DeliveredWithinPolicy(u: Setup, start: State, events: seq<Event>, d: nat)
    requires Starts(u, start) && d < |Run(u, start, events).delivered|
    ensures Run(u, start, events).delivered[d].sent < |Run(u, start, events).sent|
    ensures var q := Run(u, start, events).sent[Run(u, start, events).delivered[d].sent].request;
      var report := Run(u, start, events).delivered[d].verified.report;
      && (q.operation != "readiness" ==> Server.OriginAllowed(u.config, q.scope))
      && (q.operation == "readiness" ==>
            && (u.config.acceptedDeployments == [] || Server.DeploymentKnown(u.config, q.scope))
            && report == Obj(map["mode" := Str(u.config.mode), "protocolVersion" := Num(2),
                                 "webMcpImplementation" := Str("native")]))
  {
    hide Starts, Run, Evaluates, Server.OriginAllowed, Server.DeploymentKnown;
    Agreement(u, start, events, d);
    var s := Run(u, start, events);
    var i := s.delivered[d].sent;
    var j: nat :| Agrees(u.platform, s.sent, s.accepted, i, j)
      && Evaluates(u.config, s.accepted[j].request, s.delivered[d].verified.report);
    EvaluatesWithinPolicy(u.config, s.accepted[j].request, s.delivered[d].verified.report);
    SentContext(u, start, events, i);
  }

  lemma SentContext(u: Setup, start: State, events: seq<Event>, i: nat)
    requires Starts(u, start) && i < |Run(u, start, events).sent|
    ensures var x := Run(u, start, events).sent[i]; x.context.operation == x.request.operation
  {
    hide Starts, Run, AcceptedOk, HeldOk, Open, ReportsOk, SignedOk, DeliveredOk, GuardOk, Canonical, RequestJson;
    RunKeeps(u, start, events);
  }

  // ---- When an exchange without faults succeeds ----

  /** What a client sends, and what is reported and attested for it. */
  datatype Exchange = Exchange(
    operation: string, scope: Json, payload: Json, requestId: string, nonceBytes: seq<Byte>, built: Client.Built,
    observed: Server.Outcome, report: Json, attestationId: string, attested: Server.Attested)

  /** It can be built by the client's clock and attested by the server's. */
  predicate Possible(u: Setup, at: int, serverNow: int, x: Exchange)
  {
    && Printable(at)
    && Client.BuildRequest(u.platform, x.operation, x.scope, x.payload, Some(at), x.requestId, x.nonceBytes)
       == Ok(x.built)
    && Server.Evaluate(u.config, AcceptedOf(u.platform, x.built.request), x.observed) == Server.Report(x.report)
    && (Server.BuildAttestation(u.platform, AcceptedOf(u.platform, x.built.request), x.report, Some(serverNow),
          x.attestationId) == Ok(x.attested))
  }

  /** Sent, received, evaluated, attested and, by the client's clock at `to`, answered. */
  function Steps(u: Setup, x: Exchange, to: int): (es: seq<Event>)
    ensures |es| == 6
  {
    [ClientSend(x.operation, x.scope, x.payload, x.requestId, x.nonceBytes),
     ServerReceive(x.operation, x.built.body, Some("Bearer " + u.platform.token), true, Flushed, Flushed),
     ServerEvaluate(0, x.observed),
     ServerAttest(0, x.attestationId),
     ClientTick(to),
     ClientReceive(0, x.attested.body, true)]
  }

  lemma RunOne(u: Setup, start: State, events: seq<Event>, k: nat)
    requires k < |events|
    ensures Run(u, start, events[..k + 1]) == Step(u, Run(u, start, events[..k]), events[k])
  {
    hide Step;
    assert events[..k + 1][..k] == events[..k];
  }

  lemma RunSix(u: Setup, start: State, es: seq<Event>)
    requires |es| == 6
    ensures Run(u, start, es)
         == Step(u, Step(u, Step(u, Step(u, Step(u, Step(u, start, es[0]), es[1]), es[2]), es[3]), es[4]), es[5])
  {
    hide Step, Run;
    RunNone(u, start);
    RunOne(u, start, es, 0);
    RunOne(u, start, es, 1);
    RunOne(u, start, es, 2);
    RunOne(u, start, es, 3);
    RunOne(u, start, es, 4);
    RunOne(u, start, es, 5);
    assert es[..0] == [] && es[..6] == es;
  }

  lemma RunNone(u: Setup, start: State)
    ensures Run(u, start, []) == start
  {
  }

  lemma Sends(u: Setup, s: State, x: Exchange, to: int)
    requires Possible(u, s.clientClock, s.clock, x) && s.sent == []
    ensures Step(u, s, Steps(u, x, to)[0]) == s.(sent := [Sent(x.built.request, x.built.body, x.built.context)])
  {
    hide Client.BuildRequest, Server.Evaluate, Server.BuildAttestation, AcceptedOf;
  }

  /** The state in which only this request has been sent. */
  predicate OnlySent(s: State, x: Exchange)
  {
    && s.sent == [Sent(x.built.request, x.built.body, x.built.context)] && s.guard == map[] && s.delivered == []
  }

  predicate InTime(at: int, now: int)
  {
    at <= now < at + REQUEST_LIFETIME_MS
  }

  lemma ReceivesBuilt(u: Setup, s: State, x: Exchange, to: int)
    requires Sound(u.platform) && Possible(u, s.clientClock, s.clock, x) && 0 <= s.clientClock
    requires Live(s.store.held, s.clock) == map[] && 2 <= u.config.replayEntries
    requires OnlySent(s, x) && s.accepted == []
    ensures var s' := Step(u, s, Steps(u, x, to)[1]);
      s' == if InTime(s.clientClock, s.clock) then
              s.(store := s'.store, inFlight := s.inFlight + {0},
                 accepted := [Acceptance(AcceptedOf(u.platform, x.built.request), x.built.body, s.clock)])
            else s.(store := s'.store)
  {
    hide Sound, Server.VerifyRequest, Server.Examine, Client.BuildRequest, Server.Evaluate, Server.BuildAttestation;
    hide AcceptedOf, Printable, Live, Send, Evaluated, Attest, Answered, Restart, Reloaded, ListsKeys;
    var p := u.platform;
    BuiltRequestAccepted(p, x.operation, x.scope, x.payload, s.clientClock, x.requestId, x.nonceBytes, s.clock, s.store,
      u.config.replayEntries, true, Flushed, Flushed);
    BuiltRequestExamined(p, x.operation, x.scope, x.payload, s.clientClock, x.requestId, x.nonceBytes, s.clock);
    VerifyRequestCases(p, x.operation, x.built.body, Some("Bearer " + p.token), true, s.clock, s.store,
      u.config.replayEntries, Flushed, Flushed);
    assert s.sent[0].body == x.built.body;
  }

  lemma EvaluatesIt(u: Setup, s: State, x: Exchange, at: int, to: int)
    requires Possible(u, at, s.clock, x) && s.reports == map[] && 0 in s.inFlight
    requires s.accepted == [Acceptance(AcceptedOf(u.platform, x.built.request), x.built.body, s.clock)]
    ensures Step(u, s, Steps(u, x, to)[2]) == s.(reports := map[0 := x.report])
  {
    hide Client.BuildRequest, Server.Evaluate, Server.BuildAttestation, AcceptedOf, Send, Receive, Attest, Answered;
    hide Restart, Reloaded, ListsKeys, WasSigned, FreshRequestId, FreshAttestationId;
  }

  lemma AttestsIt(u: Setup, s: State, x: Exchange, at: int, to: int)
    requires Possible(u, at, s.clock, x) && s.reports == map[0 := x.report] && s.signed == [] && 0 in s.inFlight
    requires s.accepted == [Acceptance(AcceptedOf(u.platform, x.built.request), x.built.body, s.clock)]
    ensures Step(u, s, Steps(u, x, to)[3])
         == s.(inFlight := s.inFlight - {0}, signed := [Signed(0, x.report, x.attested.attestation, x.attested.body)])
  {
    hide Client.BuildRequest, Server.Evaluate, Server.BuildAttestation, AcceptedOf, Send, Receive, Evaluated, Answered;
    hide Restart, Reloaded, ListsKeys, WasSigned, FreshRequestId;
    AnswerBody(u, at, s.clock, x);
  }

  /** Nothing in flight: the server neither evaluates nor attests, and the client's clock goes on. */
  lemma IdleSteps(u: Setup, s: State, x: Exchange, to: int)
    ensures s.inFlight == {} ==> Step(u, s, Steps(u, x, to)[2]) == s && Step(u, s, Steps(u, x, to)[3]) == s
    ensures s.clientClock <= to ==> Step(u, s, Steps(u, x, to)[4]) == s.(clientClock := to)
  {
    hide Send, Receive, Evaluated, Attest, Answered, Restart, Reloaded, ListsKeys, WasSigned, FreshRequestId;
    hide FreshAttestationId;
  }

  lemma AnswersSigned(u: Setup, s: State, x: Exchange, at: int, serverNow: int)
    requires Sound(u.platform) && Possible(u, at, serverNow, x) && 1 <= u.guardEntries && InTime(at, serverNow)
    requires OnlySent(s, x) && s.signed == [Signed(0, x.report, x.attested.attestation, x.attested.body)]
    ensures Step(u, s, Steps(u, x, s.clientClock)[5]).delivered ==
      if serverNow <= s.clientClock < at + REQUEST_LIFETIME_MS then
        [Delivery(0, Client.Verified(x.report, x.attested.attestation), s.clientClock)]
      else []
  {
    hide Sound, Client.ExamineResponse, Client.BuildRequest, Server.Evaluate, Server.BuildAttestation, AcceptedOf;
    hide Printable, Send, Receive, Evaluated, Attest, Restart, Reloaded, ListsKeys;
    BuiltRequestAnswered(u.platform, x.operation, x.scope, x.payload, at, x.requestId, x.nonceBytes, x.report,
      serverNow, x.attestationId, s.clientClock);
    assert s.signed[0].body == x.attested.body;
    assert Live(s.guard, s.clientClock) == map[];
  }

  /** Without a signed attestation the client accepts nothing, not even its own request. */
  lemma AnswersUnsigned(u: Setup, s: State, x: Exchange, at: int, serverNow: int)
    requires Possible(u, at, serverNow, x) && OnlySent(s, x) && s.signed == []
    ensures Step(u, s, Steps(u, x, s.clientClock)[5]).delivered == []
  {
    hide Client.ExamineResponse, Client.BuildRequest, Server.Evaluate, Server.BuildAttestation, AcceptedOf, Canonical;
    hide Printable, Send, Receive, Evaluated, Attest, Restart, Reloaded, ListsKeys, RequestJson;
    BuiltFields(u.platform, x.operation, x.scope, x.payload, at, x.requestId, x.nonceBytes);
    RequestNotResponse(u.platform, x.built.request, true, x.built.context, Some(s.clientClock));
  }

  /**
   From a start with room, a request the client can build is sent, accepted, attested and answered exactly when the
   server's clock lies in the request's window by the client's clock, and the client, when it is answered, is not
   behind the server's clock and still in the window.
   */
  lemma ExchangeSucceeds(u: Setup, start: State, x: Exchange, to: int)
    requires Starts(u, start) && Possible(u, start.clientClock, start.clock, x) && 0 <= start.clientClock <= to
    requires Live(start.store.held, start.clock) == map[] && 2 <= u.config.replayEntries && 1 <= u.guardEntries
    ensures Run(u, start, Steps(u, x, to)).delivered ==
      if InTime(start.clientClock, start.clock) && start.clock <= to < start.clientClock + REQUEST_LIFETIME_MS then
        [Delivery(0, Client.Verified(x.report, x.attested.attestation), to)]
      else []
  {
    hide Step, Sound, Live, AcceptedOf, Possible, Run, Steps;
    var es := Steps(u, x, to);
    RunSix(u, start, es);
    Sends(u, start, x, to);
    var s1 := Step(u, start, es[0]);
    ReceivesBuilt(u, s1, x, to);
    var s2 := Step(u, s1, es[1]);
    if InTime(start.clientClock, start.clock) {
      EvaluatesIt(u, s2, x, start.clientClock, to);
      var s3 := Step(u, s2, es[2]);
      AttestsIt(u, s3, x, start.clientClock, to);
      var s4 := Step(u, s3, es[3]);
      IdleSteps(u, s4, x, to);
      AnswersSigned(u, Step(u, s4, es[4]), x, start.clientClock, start.clock);
    } else {
      IdleSteps(u, s2, x, to);
      AnswersUnsigned(u, Step(u, s2, es[4]), x, start.clientClock, start.clock);
    }
  }

  lemma AnswerBody(u: Setup, at: int, serverNow: int, x: Exchange)
    requires Possible(u, at, serverNow, x)
    ensures x.attested.report == x.report
  {
    hide Client.BuildRequest, Server.Evaluate, AttestationJson, Canonical, IsUuidV4, ByteLength;
  }
}
