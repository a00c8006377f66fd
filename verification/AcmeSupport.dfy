/**
 The in-memory support desk: sessions, confirmations and the tickets they pay for, updated in place. Each method is
 proved to do what its namesake in SupportLedger says.
 */
module AcmeSupport {
  import opened Wrappers
  import opened JsonText
  import opened Validation
  import opened Expiring
  import opened Idempotency
  import opened SupportLedger

  class AcmeSupport {
    const config: Config
    var sessions: map<string, Held<string>>
    var confirmations: map<string, Held<Confirmation>>
    var idempotency: map<string, Held<Remembered<TicketResult>>>
    var tickets: seq<Ticket>

    ghost function State(): Desk
      reads this
    {
      Desk(sessions, confirmations, idempotency, tickets)
    }

    constructor (config: Config)
      ensures this.config == config && State() == FRESH
    {
      this.config := config;
      sessions, confirmations, idempotency, tickets := map[], map[], map[], [];
    }

    method Sweep(now: int)
      modifies this
      ensures State() == Swept(old(State()), now)
    {
      sessions := SweepExpired(sessions, now);
      confirmations := SweepConfirmations(confirmations, sessions.Keys, now);
      idempotency := SweepExpired(idempotency, now);
    }

    method Login(email: Json, password: Json, t0: int, t1: int, session: string) returns (r: Result<string, Code>)
      modifies this
      ensures (r, State()) == SupportLedger.Login(config, old(State()), email, password, t0, t1, session)
    {
      hide Swept, BoundedString;
      var candidateEmail := BoundedString(email, 3, 254);
      if candidateEmail.Err? { return candidateEmail; }
      if candidateEmail.value != "agent@example.test" { return Err(AuthRequired); }
      var candidatePassword := BoundedString(password, 8, 128);
      if candidatePassword.Err? { return candidatePassword; }
      if candidatePassword.value != "fixture-password" { return Err(AuthRequired); }
      Sweep(t0);
      if |sessions| >= config.maxSessions { return Err(CapacityExceeded); }
      sessions := sessions[session := Held(USER_ID, t1 + config.sessionTtlMs)];
      r := Ok(session);
    }

    method IssueConfirmation(session: string, value: Json, t0: int, t1: int, id: string)
      returns (r: Result<string, Code>)
      modifies this
      ensures (r, State()) == SupportLedger.IssueConfirmation(config, old(State()), session, value, t0, t1, id)
    {
      hide Swept, NormalizeTicketRequest, TicketFingerprint;
      Sweep(t0);
      if session !in sessions { return Err(AuthRequired); }
      var request := NormalizeTicketRequest(value);
      if request.Err? { return Err(request.error); }
      var (input, key) := request.value;
      if |confirmations| >= config.maxConfirmations { return Err(CapacityExceeded); }
      var evidence := Evidence(id);
      confirmations := confirmations[evidence :=
        Held(Confirmation(session, TicketFingerprint(input), key), t1 + config.confirmationTtlMs)];
      r := Ok(evidence);
    }

    method CreateTicket(session: string, value: Json, key: Json, evidence: Option<string>, t: Readings, id: string)
      returns (r: Result<TicketResult, Code>)
      modifies this
      ensures (r, State()) == SupportLedger.CreateTicket(config, old(State()), session, value, key, evidence, t, id)
    {
      hide Swept, TicketInputChecked, CreateChecked;
      Sweep(t.swept);
      if session !in sessions { return Err(AuthRequired); }
      var checked := TicketInputChecked(value, key, evidence);
      if checked.Err? { return Err(checked.error); }
      var (input, idempotencyKey, e) := checked.value;
      r := RepeatOrCreate(session, Scope(sessions[session].value, idempotencyKey), input, idempotencyKey, e, t, id);
    }

    /** `createTicket` after the checks of its input. */
    method RepeatOrCreate(session: string, scope: string, input: TicketInput, key: string, evidence: string,
      t: Readings, id: string) returns (r: Result<TicketResult, Code>)
      modifies this
      ensures (r, State()) == CreateChecked(config, old(State()), session, scope, input, key, evidence, t, id)
    {
      hide TicketFingerprint, Scope;
      var fingerprint := TicketFingerprint(input);
      if scope in idempotency {
        var prior := idempotency[scope].value;
        if prior.fingerprint != fingerprint { return Err(IdempotencyConflict); }
        return Ok(prior.result);
      }
      if !(evidence in confirmations && confirmations[evidence].value.session == session
           && confirmations[evidence].value.idempotencyKey == key
           && confirmations[evidence].value.fingerprint == fingerprint) {
        return Err(ConfirmationInvalid);
      }
      if |tickets| >= config.maxTickets { return Err(CapacityExceeded); }
      if |idempotency| >= config.maxIdempotency { return Err(CapacityExceeded); }
      confirmations := confirmations - {evidence};
      var ticket := NewTicket(config, input, t.created, id);
      tickets := tickets + [ticket];
      idempotency := idempotency[scope :=
        Held(Remembered(fingerprint, ticket.result), t.stored + config.idempotencyTtlMs)];
      r := Ok(ticket.result);
    }

    method ListTickets(session: string, orderId: Json, t0: int) returns (r: Result<seq<Ticket>, Code>)
      modifies this
      ensures (r, State()) == SupportLedger.ListTickets(old(State()), session, orderId, t0)
    {
      hide Swept, BoundedString, OfOrder;
      Sweep(t0);
      if session !in sessions { return Err(AuthRequired); }
      var normalized := BoundedString(orderId, 1, 64);
      if normalized.Err? { return Err(normalized.error); }
      r := Ok(FirstOf(OfOrder(tickets, normalized.value), LIST_LIMIT));
    }
  }
}
