/** What each call of the support desk does to its state, as functions on values. */
module SupportLedger {
  import opened Wrappers
  import opened JsonText
  import opened Validation
  import opened Expiring
  import opened Idempotency

  /** What `createTicket` answers; the status is always "open" and is left out. */
  datatype TicketResult = TicketResult(ticketId: string, priority: string, createdAt: string)

  datatype Ticket = Ticket(result: TicketResult, orderId: string, title: string)

  const ORDER_ID := "ORD-4812"
  const USER_ID := "user-agent"

  datatype Config = Config(
    iso: int -> string,
    sessionTtlMs: int, confirmationTtlMs: int, idempotencyTtlMs: int,
    maxSessions: int, maxConfirmations: int, maxIdempotency: int, maxTickets: int)

  datatype Desk = Desk(
    sessions: map<string, Held<string>>,
    confirmations: map<string, Held<Confirmation>>,
    idempotency: map<string, Held<Remembered<TicketResult>>>,
    tickets: seq<Ticket>)

  const FRESH := Desk(map[], map[], map[], [])

  function Swept(s: Desk, now: int): Desk
  {
    var sessions := Unexpired(s.sessions, now);
    s.(sessions := sessions,
       confirmations := UnexpiredConfirmations(s.confirmations, sessions.Keys, now),
       idempotency := Unexpired(s.idempotency, now))
  }

  /** An agent logs in; the clock is read at `t0` for the sweep and at `t1` for the expiry. */
  function Login(c: Config, s: Desk, email: Json, password: Json, t0: int, t1: int, session: string)
    : (Result<string, Code>, Desk)
  {
    match BoundedString(email, 3, 254)
    case Err(e) => (Err(e), s)
    case Ok(e) =>
      if e != "agent@example.test" then (Err(AuthRequired), s)
      else
        match BoundedString(password, 8, 128)
        case Err(e) => (Err(e), s)
        case Ok(p) =>
          if p != "fixture-password" then (Err(AuthRequired), s)
          else
            var s1 := Swept(s, t0);
            if |s1.sessions| >= c.maxSessions then (Err(CapacityExceeded), s1)
            else (Ok(session), s1.(sessions := s1.sessions[session := Held(USER_ID, t1 + c.sessionTtlMs)]))
  }

  function NormalizeTicketRequest(v: Json): Result<(TicketInput, string), Code>
  {
    if !ExactKeys(v, {"toolName", "input", "idempotencyKey"})
      || v.fields["toolName"] != Str("create_support_ticket") then
      Err(ValidationError)
    else
      var input :- NormalizeTicketInput(v.fields["input"]);
      if input.orderId != ORDER_ID then Err(NotFound)
      else
        var key :- NormalizeIdempotencyKey(v.fields["idempotencyKey"], IdempotencyRequired);
        Ok((input, key))
  }

  /** The clock is read at `t0` for the session and at `t1` for the expiry. */
  function IssueConfirmation(c: Config, s: Desk, session: string, value: Json, t0: int, t1: int, id: string)
    : (Result<string, Code>, Desk)
  {
    var s1 := Swept(s, t0);
    if session !in s1.sessions then (Err(AuthRequired), s1)
    else
      match NormalizeTicketRequest(value)
      case Err(e) => (Err(e), s1)
      case Ok((input, key)) =>
        if |s1.confirmations| >= c.maxConfirmations then (Err(CapacityExceeded), s1)
        else
          var held := Held(Confirmation(session, TicketFingerprint(input), key), t1 + c.confirmationTtlMs);
          (Ok(Evidence(id)), s1.(confirmations := s1.confirmations[Evidence(id) := held]))
  }

  /** The readings of the clock inside one ticket, in the order they are taken. */
  datatype Readings = Readings(swept: int, created: int, stored: int)

  /** The checks of a ticket that stand before its key is looked up: the input, the order, the evidence, the key. */
  function TicketInputChecked(value: Json, key: Json, evidence: Option<string>)
    : (r: Result<(TicketInput, string, string), Code>)
    ensures r.Ok? ==> evidence == Some(r.value.2) && r.value.2 != ""
  {
    var input :- NormalizeTicketInput(value);
    if input.orderId != ORDER_ID then Err(NotFound)
    else if evidence.None? || evidence.value == "" then Err(ConfirmationRequired)
    else
      var idempotencyKey :- NormalizeIdempotencyKey(key, IdempotencyRequired);
      Ok((input, idempotencyKey, evidence.value))
  }

  /** The refusals that stand between an unknown key and the effect; the expiry is not looked at again. */
  function TicketRefusal(c: Config, s: Desk, session: string, input: TicketInput, key: string, evidence: string)
    : Option<Code>
  {
    if evidence !in s.confirmations
      || s.confirmations[evidence].value != Confirmation(session, TicketFingerprint(input), key)
    then Some(ConfirmationInvalid)
    else if |s.tickets| >= c.maxTickets then Some(CapacityExceeded)
    else if |s.idempotency| >= c.maxIdempotency then Some(CapacityExceeded)
    else None
  }

  function NewTicket(c: Config, input: TicketInput, created: int, id: string): Ticket
  {
    Ticket(TicketResult("TCK-" + id, input.priority, c.iso(created)), input.orderId, input.title)
  }

  /** The effect of a ticket that nothing refuses. */
  function TicketEffect(
    c: Config, s: Desk, scope: string, input: TicketInput, evidence: string, t: Readings, id: string)
    : Desk
  {
    var ticket := NewTicket(c, input, t.created, id);
    s.(confirmations := s.confirmations - {evidence},
       tickets := s.tickets + [ticket],
       idempotency := s.idempotency[scope :=
         Held(Remembered(TicketFingerprint(input), ticket.result), t.stored + c.idempotencyTtlMs)])
  }

  /** The ticket of a checked input: repeated, refused or made. */
  function CreateChecked(c: Config, s: Desk, session: string, scope: string, input: TicketInput, key: string,
    evidence: string, t: Readings, id: string): (Result<TicketResult, Code>, Desk)
  {
    if scope in s.idempotency then
      var prior := s.idempotency[scope].value;
      if prior.fingerprint != TicketFingerprint(input) then (Err(IdempotencyConflict), s)
      else (Ok(prior.result), s)
    else
      match TicketRefusal(c, s, session, input, key, evidence)
      case Some(e) => (Err(e), s)
      case None => (Ok(NewTicket(c, input, t.created, id).result), TicketEffect(c, s, scope, input, evidence, t, id))
  }

  function CreateTicket(c: Config, s: Desk, session: string, value: Json, key: Json, evidence: Option<string>,
    t: Readings, id: string): (Result<TicketResult, Code>, Desk)
  {
    var s1 := Swept(s, t.swept);
    if session !in s1.sessions then (Err(AuthRequired), s1)
    else
      match TicketInputChecked(value, key, evidence)
      case Err(e) => (Err(e), s1)
      case Ok((input, idempotencyKey, e)) =>
        var scope := Scope(s1.sessions[session].value, idempotencyKey);
        CreateChecked(c, s1, session, scope, input, idempotencyKey, e, t, id)
  }

  /** The tickets of one order, in the order they were made. */
  function OfOrder(tickets: seq<Ticket>, orderId: string): seq<Ticket>
  {
    if tickets == [] then []
    else
      var rest := OfOrder(tickets[..|tickets| - 1], orderId);
      var last := tickets[|tickets| - 1];
      if last.orderId == orderId then rest + [last] else rest
  }

  function ListTickets(s: Desk, session: string, orderId: Json, t0: int): (Result<seq<Ticket>, Code>, Desk)
  {
    var s1 := Swept(s, t0);
    if session !in s1.sessions then (Err(AuthRequired), s1)
    else
      match BoundedString(orderId, 1, 64)
      case Err(e) => (Err(e), s1)
      case Ok(id) => (Ok(FirstOf(OfOrder(s1.tickets, id), LIST_LIMIT)), s1)
  }
}
