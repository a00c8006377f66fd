/**
 The release verifier protocol v2 as a step system: a client, a server with a durable replay store, and a network
 that may lose, repeat, delay and reorder messages or put in its own. A signature verifies only on a body that one
 of the two sides signed; request and attestation identifiers are fresh; each side has a clock of its own, which does
 not go backwards and need not agree with the other.
 */
module VerifierSystem {
  import opened Wrappers
  import opened Unicode
  import opened JsonText
  import opened ReplayStore
  import opened VerifierEnvelope
  import Server = VerifierServer
  import Client = VerifierClient

  datatype Setup = Setup(platform: Platform, config: Server.Config, guardEntries: int)

  datatype Sent = Sent(request: Request, body: string, context: Context)

  datatype Acceptance = Acceptance(request: Server.Accepted, body: string, at: int)

  /** An attestation the server signed, for the acceptance with index `source`. */
  datatype Signed = Signed(source: nat, report: Json, attestation: Attestation, body: string)

  /** A response the client accepted for the request with index `sent`. */
  datatype Delivery = Delivery(sent: nat, verified: Client.Verified, at: int)

  datatype State = State(
    /** The server's clock. */
    clock: int,
    clientClock: int,
    sent: seq<Sent>,
    store: Durable,
    accepted: seq<Acceptance>,
    /** The acceptances the running server process has not answered yet. */
    inFlight: set<nat>,
    /** What `evaluate` returned for an acceptance. */
    reports: map<nat, Json>,
    signed: seq<Signed>,
    guard: map<string, int>,
    delivered: seq<Delivery>)

  datatype Event =
    | Tick(to: int)
    | ClientTick(to: int)
    | ClientSend(operation: string, scope: Json, payload: Json, requestId: string, nonceBytes: seq<Byte>)
    | ServerReceive(
        operation: string, body: string, authorization: Option<string>, verifies: bool, w1: Write, w2: Write)
    | ServerEvaluate(index: nat, observed: Server.Outcome)
    | ServerAttest(index: nat, attestationId: string)
    | ServerRestart(order: seq<string>)
    | ClientReceive(index: nat, body: string, verifies: bool)

  ghost predicate WasSigned(s: State, body: string)
  {
    || (exists i :: 0 <= i < |s.sent| && s.sent[i].body == body)
    || (exists m :: 0 <= m < |s.signed| && s.signed[m].body == body)
  }

  ghost predicate FreshRequestId(s: State, requestId: string)
  {
    forall i :: 0 <= i < |s.sent| ==> s.sent[i].request.requestId != requestId
  }

  ghost predicate FreshAttestationId(s: State, attestationId: string)
  {
    forall m :: 0 <= m < |s.signed| ==> s.signed[m].attestation.attestationId != attestationId
  }

  function Init(store: Durable, clock: int, clientClock: int): State
  {
    State(clock, clientClock, [], store, [], {}, map[], [], map[], [])
  }

  function Send(u: Setup, s: State, operation: string, scope: Json, payload: Json, requestId: string,
    nonceBytes: seq<Byte>): State
  {
    match Client.BuildRequest(u.platform, operation, scope, payload, Some(s.clientClock), requestId, nonceBytes)
    case Err(_) => s
    case Ok(built) => s.(sent := s.sent + [Sent(built.request, built.body, built.context)])
  }

  function Receive(u: Setup, s: State, operation: string, body: string, authorization: Option<string>, verifies: bool,
    w1: Write, w2: Write): State
  {
    var (verdict, store) := Server.VerifyRequest(u.platform, operation, body, authorization, verifies, Some(s.clock),
      s.store, u.config.replayEntries, true, w1, w2);
    match verdict
    case Admitted(r) =>
      s.(store := store,
         accepted := s.accepted + [Acceptance(r, body, s.clock)],
         inFlight := s.inFlight + {|s.accepted|})
    case _ => s.(store := store)
  }

  function Evaluated(u: Setup, s: State, index: nat, observed: Server.Outcome): State
    requires index < |s.accepted|
  {
    match Server.Evaluate(u.config, s.accepted[index].request, observed)
    case Report(report) => s.(reports := s.reports[index := report])
    case Refused(_) => s.(inFlight := s.inFlight - {index})
  }

  function Attest(u: Setup, s: State, index: nat, attestationId: string): State
    requires index < |s.accepted| && index in s.reports
  {
    var answered := s.(inFlight := s.inFlight - {index});
    match Server.BuildAttestation(
      u.platform, s.accepted[index].request, s.reports[index], Some(s.clock), attestationId)
    case Err(_) => answered
    case Ok(a) => answered.(signed := s.signed + [Signed(index, a.report, a.attestation, a.body)])
  }

  function Answered(u: Setup, s: State, index: nat, body: string, verifies: bool): State
    requires index < |s.sent|
  {
    var (result, guard) := Client.VerifyResponse(
      u.platform, body, verifies, s.sent[index].context, Some(s.clientClock), s.guard, u.guardEntries);
    match result
    case Err(_) => s.(guard := guard)
    case Ok(v) => s.(guard := guard, delivered := s.delivered + [Delivery(index, v, s.clientClock)])
  }

  /** One step; an event that the assumptions rule out changes nothing. */
  ghost function Step(u: Setup, s: State, e: Event): State
  {
    match e
    case Tick(to) => if to < s.clock then s else s.(clock := to)
    case ClientTick(to) => if to < s.clientClock then s else s.(clientClock := to)
    case ClientSend(operation, scope, payload, requestId, nonceBytes) =>
      if FreshRequestId(s, requestId) then Send(u, s, operation, scope, payload, requestId, nonceBytes) else s
    case ServerReceive(operation, body, authorization, verifies, w1, w2) =>
      if verifies ==> WasSigned(s, body) then Receive(u, s, operation, body, authorization, verifies, w1, w2) else s
    case ServerEvaluate(index, observed) =>
      if index in s.inFlight && index !in s.reports && index < |s.accepted| then Evaluated(u, s, index, observed) else s
    case ServerAttest(index, attestationId) =>
      if index in s.inFlight && index in s.reports && index < |s.accepted| && FreshAttestationId(s, attestationId)
      then Attest(u, s, index, attestationId) else s
    case ServerRestart(order) =>
      if ListsKeys(order, Reloaded(s.store, s.clock).Keys)
      then s.(store := Restart(s.store, s.clock, order), inFlight := {}) else s
    case ClientReceive(index, body, verifies) =>
      if index < |s.sent| && (verifies ==> WasSigned(s, body)) then Answered(u, s, index, body, verifies) else s
  }

  /** The state after some events. */
  ghost function Run(u: Setup, start: State, events: seq<Event>): State
  {
    if events == [] then start
    else Step(u, Run(u, start, events[..|events| - 1]), events[|events| - 1])
  }
}
