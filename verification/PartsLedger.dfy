/** What each call of the parts console does to its state, as functions on values. */
module PartsLedger {
  import opened Wrappers
  import opened Arithmetic
  import opened JsonText
  import opened Validation
  import opened Expiring
  import opened Idempotency

  datatype Session = Session(userId: string, requestToken: string)

  datatype Status = Reserved | Released

  datatype Reservation = Reservation(
    reservationId: string, sku: string, quantity: int, orderReference: string, status: Status,
    createdAt: string, releasedAt: string)

  /** What `reserve` answers; the members that are always the same are left out. */
  datatype ReservationResult = ReservationResult(
    reservationId: string, sku: string, quantity: int, orderReference: string, createdAt: string)

  datatype Part = Part(sku: string, name: string, onHand: int, reserved: int)

  const SEED_PARTS := [
    Part("PC-1180", "Hydraulic seal kit", 12, 0),
    Part("PC-2245", "Drive belt 40mm", 4, 0)]

  /** The options of the console; `accepts` is the comparison with the operator's credentials, `lower` toLowerCase. */
  datatype Config = Config(
    accepts: (string, string) -> bool,
    lower: string -> string,
    iso: int -> string,
    sessionTtlMs: int, confirmationTtlMs: int, idempotencyTtlMs: int,
    maxSessions: int, maxConfirmations: int, maxIdempotency: int, maxReservations: int)

  datatype Console = Console(
    sessions: map<string, Held<Session>>,
    confirmations: map<string, Held<Confirmation>>,
    idempotency: map<string, Held<Remembered<ReservationResult>>>,
    reservations: seq<Reservation>,
    parts: seq<Part>)

  const FRESH := Console(map[], map[], map[], [], SEED_PARTS)

  // ---- What each call does ----

  function Swept(s: Console, now: int): Console
  {
    var sessions := Unexpired(s.sessions, now);
    s.(sessions := sessions,
       confirmations := UnexpiredConfirmations(s.confirmations, sessions.Keys, now),
       idempotency := Unexpired(s.idempotency, now))
  }

  /** The index of the first part with a SKU. */
  function FindPart(parts: seq<Part>, sku: string): (r: Option<nat>)
    ensures r.Some? ==> r.value < |parts| && parts[r.value].sku == sku
    ensures r.None? ==> forall i :: 0 <= i < |parts| ==> parts[i].sku != sku
  {
    if parts == [] then None
    else if parts[0].sku == sku then Some(0)
    else match FindPart(parts[1..], sku)
         case None => None
         case Some(i) => Some(i + 1)
  }

  /** The index of the reservation an identifier is mapped to. */
  function FindReservation(rs: seq<Reservation>, id: string): (r: Option<nat>)
    ensures r.Some? ==> r.value < |rs| && rs[r.value].reservationId == id
    ensures r.None? ==> forall i :: 0 <= i < |rs| ==> rs[i].reservationId != id
  {
    if rs == [] then None
    else if rs[0].reservationId == id then Some(0)
    else match FindReservation(rs[1..], id)
         case None => None
         case Some(i) => Some(i + 1)
  }

  /** `Map.set`: an identifier that is already there keeps its place and loses its reservation. */
  function PutReservation(rs: seq<Reservation>, r: Reservation): seq<Reservation>
  {
    match FindReservation(rs, r.reservationId)
    case None => rs + [r]
    case Some(i) => rs[i := r]
  }

  function Login(c: Config, s: Console, email: Json, password: Json, t0: int, t1: int, session: string, token: string)
    : (Result<string, Code>, Console)
  {
    match (BoundedString(email, 3, 254), BoundedString(password, 8, 128))
    case (Err(e), _) => (Err(e), s)
    case (_, Err(e)) => (Err(e), s)
    case (Ok(e), Ok(p)) =>
      if !c.accepts(e, p) then (Err(AuthRequired), s)
      else
        var s1 := Swept(s, t0);
        if |s1.sessions| >= c.maxSessions then (Err(CapacityExceeded), s1)
        else
          (Ok(session), s1.(sessions := s1.sessions[session := Held(Session("operator", token), t1 + c.sessionTtlMs)]))
  }

  function Logout(s: Console, session: string, t0: int): Console
  {
    var s1 := Swept(s, t0);
    s1.(sessions := s1.sessions - {session},
        confirmations := map k | k in s1.confirmations && s1.confirmations[k].value.session != session
                         :: s1.confirmations[k])
  }

  function ReservationId(id: string): string
  {
    "RSV-" + id
  }

  /** The clock is read at `t0` for the session, at `t1` for a second sweep and at `t2` for the expiry. */
  function IssueConfirmation(c: Config, s: Console, session: string, value: Json, t0: int, t1: int, t2: int, id: string)
    : (Result<string, Code>, Console)
  {
    var s1 := Swept(s, t0);
    if session !in s1.sessions then (Err(AuthRequired), s1)
    else
      match NormalizeReservationRequest(value)
      case Err(e) => (Err(e), s1)
      case Ok((input, key)) =>
        if FindPart(s1.parts, input.sku).None? then (Err(NotFound), s1)
        else
          var s2 := Swept(s1, t1);
          if |s2.confirmations| >= c.maxConfirmations then (Err(CapacityExceeded), s2)
          else
            var confirmation := Confirmation(session, ReservationFingerprint(input), key);
            (Ok(Evidence(id)),
             s2.(confirmations := s2.confirmations[Evidence(id) := Held(confirmation, t2 + c.confirmationTtlMs)]))
  }

  /** The readings of the clock inside one reservation, in the order they are taken. */
  datatype Readings = Readings(swept: int, confirmed: int, created: int, stored: int)

  predicate Confirms(s: Console, evidence: string, session: string, key: string, fingerprint: string, now: int)
  {
    && evidence in s.confirmations
    && s.confirmations[evidence].value == Confirmation(session, fingerprint, key)
    && s.confirmations[evidence].expiresAt > now
  }

  /** `evidence ? … : …`: an empty string counts as no evidence. */
  function Given(evidence: Option<string>): Option<string>
  {
    if evidence == Some("") then None else evidence
  }

  /** The checks of a reservation that stand before its key is looked up: the input, the part, the key. */
  function ReserveInput(parts: seq<Part>, value: Json, key: Json): (r: Result<(ReservationInput, nat, string), Code>)
    ensures r.Ok? ==> r.value.1 < |parts| && parts[r.value.1].sku == r.value.0.sku && 1 <= r.value.0.quantity
  {
    var input :- NormalizeReservationInput(value);
    match FindPart(parts, input.sku)
    case None => Err(NotFound)
    case Some(part) =>
      if !input.confirmed then Err(ConfirmationRequired)
      else
        var idempotencyKey :- NormalizeIdempotencyKey(key, IdempotencyRequired);
        Ok((input, part, idempotencyKey))
  }

  /** The refusals that stand between an unknown key and the effect. */
  function ReserveRefusal(c: Config, s: Console, session: string, input: ReservationInput, part: nat, key: string,
    evidence: Option<string>, now: int): Option<Code>
    requires part < |s.parts|
  {
    var p := s.parts[part];
    if Given(evidence).Some? && !Confirms(s, evidence.value, session, key, ReservationFingerprint(input), now)
    then Some(ConfirmationInvalid)
    else if p.onHand - p.reserved < input.quantity then Some(InsufficientStock)
    else if |s.reservations| >= c.maxReservations then Some(CapacityExceeded)
    else if |s.idempotency| >= c.maxIdempotency then Some(CapacityExceeded)
    else None
  }

  function ResultOf(r: Reservation): ReservationResult
  {
    ReservationResult(r.reservationId, r.sku, r.quantity, r.orderReference, r.createdAt)
  }

  function NewReservation(c: Config, input: ReservationInput, created: int, id: string): Reservation
  {
    Reservation(ReservationId(id), input.sku, input.quantity, input.orderReference, Reserved, c.iso(created), "")
  }

  /** The effect of a reservation that nothing refuses. */
  function ReserveEffect(c: Config, s: Console, scope: string, input: ReservationInput, part: nat,
    evidence: Option<string>, t: Readings, id: string): Console
    requires part < |s.parts|
  {
    var r := NewReservation(c, input, t.created, id);
    s.(confirmations := if Given(evidence).Some? then s.confirmations - {evidence.value} else s.confirmations,
       parts := s.parts[part := s.parts[part].(reserved := s.parts[part].reserved + input.quantity)],
       reservations := PutReservation(s.reservations, r),
       idempotency := s.idempotency[scope :=
         Held(Remembered(ReservationFingerprint(input), ResultOf(r)), t.stored + c.idempotencyTtlMs)])
  }

  /** The reservation of a checked input: repeated, refused or made. */
  function ReserveChecked(c: Config, s: Console, session: string, scope: string, input: ReservationInput, part: nat,
    key: string, evidence: Option<string>, t: Readings, id: string): (Result<ReservationResult, Code>, Console)
    requires part < |s.parts|
  {
    if scope in s.idempotency then
      var prior := s.idempotency[scope].value;
      if prior.fingerprint != ReservationFingerprint(input) then (Err(IdempotencyConflict), s)
      else (Ok(prior.result), s)
    else
      match ReserveRefusal(c, s, session, input, part, key, evidence, t.confirmed)
      case Some(e) => (Err(e), s)
      case None =>
        (Ok(ResultOf(NewReservation(c, input, t.created, id))),
         ReserveEffect(c, s, scope, input, part, evidence, t, id))
  }

  function Reserve(c: Config, s: Console, session: string, value: Json, key: Json, evidence: Option<string>,
    t: Readings, id: string): (Result<ReservationResult, Code>, Console)
  {
    var s1 := Swept(s, t.swept);
    if session !in s1.sessions then (Err(AuthRequired), s1)
    else
      match ReserveInput(s1.parts, value, key)
      case Err(e) => (Err(e), s1)
      case Ok((input, part, idempotencyKey)) =>
        ReserveChecked(c, s1, session, Scope(s1.sessions[session].value.userId, idempotencyKey), input, part,
          idempotencyKey, evidence, t, id)
  }

  /** `release`: the reversal of a reservation, at most once. */
  function Release(c: Config, s: Console, session: string, id: Json, t0: int, t1: int)
    : (Result<Reservation, Code>, Console)
  {
    var s1 := Swept(s, t0);
    if session !in s1.sessions then (Err(AuthRequired), s1)
    else
      match BoundedString(id, 1, 128)
      case Err(e) => (Err(e), s1)
      case Ok(reservationId) =>
        match FindReservation(s1.reservations, reservationId)
        case None => (Err(NotFound), s1)
        case Some(i) =>
          var r := s1.reservations[i];
          if r.status == Released then (Ok(r), s1)
          else
            match FindPart(s1.parts, r.sku)
            case None => (Err(NotFound), s1)
            case Some(part) =>
              var r' := r.(status := Released, releasedAt := c.iso(t1));
              var p := s1.parts[part];
              (Ok(r'), s1.(
                parts := s1.parts[part := p.(reserved := Max(0, p.reserved - r.quantity))],
                reservations := s1.reservations[i := r']))
  }

  datatype Summary = Summary(sku: string, name: string, available: int)

  predicate Contains(s: string, part: string)
  {
    exists i :: 0 <= i <= |s| && part <= s[i..]
  }

  predicate Wanted(c: Config, p: Part, query: string)
  {
    query == "" || Contains(c.lower(p.sku), query) || Contains(c.lower(p.name), query)
  }

  function Summaries(c: Config, parts: seq<Part>, query: string): seq<Summary>
  {
    if parts == [] then []
    else
      var rest := Summaries(c, parts[1..], query);
      if Wanted(c, parts[0], query) then
        [Summary(parts[0].sku, parts[0].name, parts[0].onHand - parts[0].reserved)] + rest
      else rest
  }

  function ListParts(c: Config, s: Console, session: string, query: Option<string>, t0: int)
    : (Result<seq<Summary>, Code>, Console)
  {
    var s1 := Swept(s, t0);
    if session !in s1.sessions then (Err(AuthRequired), s1)
    else
      match if query.None? || query.value == "" then Ok("") else BoundedString(Str(query.value), 1, 120)
      case Err(e) => (Err(e), s1)
      case Ok(q) =>
        var all := Summaries(c, s1.parts, if query.None? || query.value == "" then "" else c.lower(q));
        (Ok(FirstOf(all, LIST_LIMIT)), s1)
  }
}
