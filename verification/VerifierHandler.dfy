/** One HTTP request at the server: admit, evaluate, attest, in this order, as steps of the protocol's system. */
module VerifierHandler {
  import opened Wrappers
  import opened Unicode
  import opened JsonText
  import opened ReplayStore
  import opened VerifierEnvelope
  import opened VerifierServer
  import S = VerifierSystem

  /** How an evaluation ends under its deadline: it returns, the deadline passes first, or it throws. */
  datatype Observation = Returned(outcome: Outcome) | TimedOut | Threw

  /** What `withDeadline` makes of it. */
  function Seen(o: Observation): Outcome
  {
    match o
    case Returned(outcome) => outcome
    case TimedOut => Refused("RELEASE_VERIFIER_DEADLINE_EXCEEDED")
    case Threw => Refused("RELEASE_VERIFIER_VERIFICATION_FAILED")
  }

  /**
   What the handler is given: the request, the two readings of the clock, how the log writes end, how the candidate or
   installation verifier ends, and the attestation identifier. A body that is too long is None; an empty one is a text.
   */
  datatype Call = Call(
    path: string, verb: string, body: Option<string>, authorization: Option<string>, signed: bool,
    now: int, w1: Write, w2: Write, observed: Observation, later: int, attestationId: string)

  datatype Response = Failed(status: int, code: string) | Answer(body: string)

  const INTERNAL := Failed(500, "RELEASE_VERIFIER_INTERNAL_ERROR")

  /** From the admitted request on. The verifier is asked, and so can be late, only where the evaluation needs it. */
  function Answered(p: Platform, c: Config, call: Call, r: Accepted): Response
  {
    match Evaluate(c, r, Seen(call.observed))
    case Refused(code) => Failed(422, code)
    case Report(report) =>
      match BuildAttestation(p, r, report, Some(call.later), call.attestationId)
      case Err(_) => Failed(500, "RELEASE_VERIFIER_ATTESTATION_FAILED")
      case Ok(a) => Answer(a.body)
  }

  function Handled(p: Platform, c: Config, d: Durable, open: bool, call: Call): (Response, Durable)
  {
    match OperationForPath(call.path)
    case None => (Failed(404, "RELEASE_VERIFIER_NOT_FOUND"), d)
    case Some(operation) =>
      if call.verb != "POST" then (Failed(405, "RELEASE_VERIFIER_METHOD_NOT_ALLOWED"), d)
      else if call.body.None? then (Failed(413, "RELEASE_VERIFIER_REQUEST_TOO_LARGE"), d)
      else
        var (verdict, d') := VerifyRequest(p, operation, call.body.value, call.authorization, call.signed,
          Some(call.now), d, c.replayEntries, open, call.w1, call.w2);
        match verdict
        case Thrown => (INTERNAL, d')
        case Rejected(status, code) => (Failed(status, code), d')
        case Admitted(r) => (Answered(p, c, call, r), d')
  }

  /** `handle`, on the durable store. */
  method Handle(p: Platform, c: Config, store: DurableReplayStore, call: Call) returns (response: Response)
    requires store.Valid() && store.maxEntries == c.replayEntries
    modifies store`file, store`log, store.admitted
    ensures store.Valid()
    ensures (response, store.State()) == Handled(p, c, old(store.State()), store.open, call)
  {
    hide VerifyRequest, Evaluate, BuildAttestation;
    var operation := OperationForPath(call.path);
    if operation.None? { return Failed(404, "RELEASE_VERIFIER_NOT_FOUND"); }
    if call.verb != "POST" { return Failed(405, "RELEASE_VERIFIER_METHOD_NOT_ALLOWED"); }
    if call.body.None? { return Failed(413, "RELEASE_VERIFIER_REQUEST_TOO_LARGE"); }
    var verified := VerifyVerifierRequest(p, operation.value, call.body.value, call.authorization, call.signed,
      Some(call.now), store, call.w1, call.w2);
    if verified.Thrown? { return INTERNAL; }
    if verified.Rejected? { return Failed(verified.status, verified.code); }
    var outcome := Evaluate(c, verified.request, Seen(call.observed));
    if outcome.Refused? { return Failed(422, outcome.code); }
    var attestation := BuildAttestation(p, verified.request, outcome.report, Some(call.later), call.attestationId);
    if attestation.Err? { return Failed(500, "RELEASE_VERIFIER_ATTESTATION_FAILED"); }
    response := Answer(attestation.value.body);
  }

  // ---- The handler takes steps of the system ----

  /** The steps of one call that reaches the protocol, for the acceptance it would make. */
  function Events(call: Call, index: nat): (es: seq<S.Event>)
    requires OperationForPath(call.path).Some? && call.body.Some?
    ensures |es| == 4
  {
    [S.ServerReceive(
       OperationForPath(call.path).value, call.body.value, call.authorization, call.signed, call.w1, call.w2),
     S.ServerEvaluate(index, Seen(call.observed)),
     S.Tick(call.later),
     S.ServerAttest(index, call.attestationId)]
  }

  ghost function FourSteps(u: S.Setup, s: S.State, es: seq<S.Event>): S.State
    requires |es| == 4
  {
    S.Step(u, S.Step(u, S.Step(u, S.Step(u, s, es[0]), es[1]), es[2]), es[3])
  }

  /** A call that the system's assumptions allow in this state. */
  ghost predicate Allowed(s: S.State, call: Call)
  {
    && OperationForPath(call.path).Some? && call.verb == "POST" && call.body.Some?
    && call.now == s.clock <= call.later
    && (call.signed ==> S.WasSigned(s, call.body.value))
    && S.FreshAttestationId(s, call.attestationId)
    && (forall i :: i in s.inFlight ==> i < |s.accepted|)
    && (forall i :: i in s.reports ==> i < |s.accepted|)
  }

  lemma Receives(u: S.Setup, s: S.State, call: Call)
    requires Allowed(s, call)
    ensures var (verdict, d) := VerifyRequest(u.platform, OperationForPath(call.path).value, call.body.value,
        call.authorization, call.signed, Some(s.clock), s.store, u.config.replayEntries, true, call.w1, call.w2);
      S.Step(u, s, Events(call, |s.accepted|)[0]) ==
        if verdict.Admitted? then
          s.(store := d, accepted := s.accepted + [S.Acceptance(verdict.request, call.body.value, s.clock)],
             inFlight := s.inFlight + {|s.accepted|})
        else s.(store := d)
  {
    hide VerifyRequest, S.Send, S.Evaluated, S.Attest, S.Answered, Restart, Reloaded, ListsKeys, S.WasSigned;
    hide S.FreshRequestId, S.FreshAttestationId;
  }

  lemma StepsIdle(u: S.Setup, s: S.State, call: Call, index: nat)
    requires OperationForPath(call.path).Some? && call.body.Some?
    requires index !in s.inFlight && s.clock <= call.later
    ensures S.Step(u, s, Events(call, index)[1]) == s
    ensures S.Step(u, s, Events(call, index)[2]) == s.(clock := call.later)
    ensures S.Step(u, s.(clock := call.later), Events(call, index)[3]) == s.(clock := call.later)
  {
    hide S.Send, S.Receive, S.Evaluated, S.Attest, S.Answered, Restart, Reloaded, ListsKeys, S.WasSigned;
    hide S.FreshRequestId, S.FreshAttestationId;
  }

  lemma StepsAnswer(u: S.Setup, s: S.State, call: Call, index: nat)
    requires OperationForPath(call.path).Some? && call.body.Some?
    requires index in s.inFlight && index !in s.reports && index < |s.accepted| && s.clock <= call.later
    requires S.FreshAttestationId(s, call.attestationId)
    ensures var r := s.accepted[index].request;
      var s2 := S.Step(u, s, Events(call, index)[1]);
      var s4 := S.Step(u, s2.(clock := call.later), Events(call, index)[3]);
      && S.Step(u, s2, Events(call, index)[2]) == s2.(clock := call.later)
      && s4.store == s.store && s4.accepted == s.accepted && s4.clock == call.later
      && match Answered(u.platform, u.config, call, r)
         case Failed(_, _) => s4.signed == s.signed
         case Answer(body) =>
           |s4.signed| == |s.signed| + 1 && s4.signed[..|s.signed|] == s.signed
           && s4.signed[|s.signed|].source == index && s4.signed[|s.signed|].body == body
  {
    hide Evaluate, BuildAttestation, S.Send, S.Receive, S.Answered, Restart, Reloaded, ListsKeys, S.WasSigned;
    hide S.FreshRequestId;
  }

  /**
   A call of the handler is four steps of the system: the store ends as the handler leaves it, and an attestation is
   signed exactly when the handler answers with one, for the request it has just admitted.
   */
  lemma HandlerStepsSystem(u: S.Setup, s: S.State, call: Call)
    requires Allowed(s, call)
    ensures var (response, d) := Handled(u.platform, u.config, s.store, true, call);
      var s' := FourSteps(u, s, Events(call, |s.accepted|));
      && s'.store == d && s'.clock == call.later
      && match response
         case Failed(_, _) => s'.signed == s.signed
         case Answer(body) =>
           && |s'.accepted| == |s.accepted| + 1 && s'.accepted[|s.accepted|].body == call.body.value
           && |s'.signed| == |s.signed| + 1 && s'.signed[..|s.signed|] == s.signed
           && s'.signed[|s.signed|].source == |s.accepted| && s'.signed[|s.signed|].body == body
  {
    hide S.Step, VerifyRequest, Answered, S.WasSigned, Events;
    var index := |s.accepted|;
    Receives(u, s, call);
    var s1 := S.Step(u, s, Events(call, index)[0]);
    if index in s1.inFlight {
      StepsAnswer(u, s1, call, index);
    } else {
      StepsIdle(u, s1, call, index);
    }
  }
}
