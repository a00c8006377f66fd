/**
 The in-memory parts console: sessions, confirmations, reservations of stock and their release, updated in place.
 Each method is proved to do what its namesake in PartsLedger says.
 */
module PartsConsole {
  import opened Wrappers
  import opened Arithmetic
  import opened JsonText
  import opened Validation
  import opened Expiring
  import opened Idempotency
  import opened PartsLedger

  class PartsConsole {
    const config: Config
    var sessions: map<string, Held<Session>>
    var confirmations: map<string, Held<Confirmation>>
    var idempotency: map<string, Held<Remembered<ReservationResult>>>
    var reservations: seq<Reservation>
    var parts: seq<Part>

    ghost function State(): Console
      reads this
    {
      Console(sessions, confirmations, idempotency, reservations, parts)
    }

    constructor (config: Config)
      ensures this.config == config && State() == FRESH
    {
      this.config := config;
      sessions, confirmations, idempotency, reservations, parts := map[], map[], map[], [], SEED_PARTS;
    }

    method Sweep(now: int)
      modifies this
      ensures State() == Swept(old(State()), now)
    {
      sessions := SweepExpired(sessions, now);
      confirmations := SweepConfirmations(confirmations, sessions.Keys, now);
      idempotency := SweepExpired(idempotency, now);
    }

    method Login(email: Json, password: Json, t0: int, t1: int, session: string, token: string)
      returns (r: Result<string, Code>)
      modifies this
      ensures (r, State()) == PartsLedger.Login(config, old(State()), email, password, t0, t1, session, token)
    {
      hide Swept, BoundedString;
      var candidateEmail := BoundedString(email, 3, 254);
      if candidateEmail.Err? { return candidateEmail; }
      var candidatePassword := BoundedString(password, 8, 128);
      if candidatePassword.Err? { return candidatePassword; }
      if !config.accepts(candidateEmail.value, candidatePassword.value) { return Err(AuthRequired); }
      Sweep(t0);
      if |sessions| >= config.maxSessions { return Err(CapacityExceeded); }
      sessions := sessions[session := Held(Session("operator", token), t1 + config.sessionTtlMs)];
      r := Ok(session);
    }

    method Logout(session: string, t0: int)
      modifies this
      ensures State() == PartsLedger.Logout(old(State()), session, t0)
    {
      Sweep(t0);
      sessions := sessions - {session};
      confirmations := DropConfirmations(confirmations, session);
    }

    method IssueConfirmation(session: string, value: Json, t0: int, t1: int, t2: int, id: string)
      returns (r: Result<string, Code>)
      modifies this
      ensures (r, State()) == PartsLedger.IssueConfirmation(config, old(State()), session, value, t0, t1, t2, id)
    {
      hide Swept, NormalizeReservationRequest, ReservationFingerprint;
      Sweep(t0);
      if session !in sessions { return Err(AuthRequired); }
      var request := NormalizeReservationRequest(value);
      if request.Err? { return Err(request.error); }
      var (input, key) := request.value;
      if FindPart(parts, input.sku).None? { return Err(NotFound); }
      Sweep(t1);
      if |confirmations| >= config.maxConfirmations { return Err(CapacityExceeded); }
      var evidence := Evidence(id);
      confirmations := confirmations[evidence :=
        Held(Confirmation(session, ReservationFingerprint(input), key), t2 + config.confirmationTtlMs)];
      r := Ok(evidence);
    }

    /** The effect at the end of `reserve`, once nothing refuses it. */
    method Commit(scope: string, input: ReservationInput, part: nat, evidence: Option<string>, t: Readings, id: string)
      returns (r: Result<ReservationResult, Code>)
      requires part < |parts|
      modifies this
      ensures State() == ReserveEffect(config, old(State()), scope, input, part, evidence, t, id)
      ensures r == Ok(ResultOf(NewReservation(config, input, t.created, id)))
    {
      hide ReservationFingerprint, PutReservation;
      if Given(evidence).Some? {
        confirmations := confirmations - {evidence.value};
      }
      var p := parts[part];
      parts := parts[part := p.(reserved := p.reserved + input.quantity)];
      var reservation := NewReservation(config, input, t.created, id);
      reservations := PutReservation(reservations, reservation);
      var result := ResultOf(reservation);
      idempotency := idempotency[scope :=
        Held(Remembered(ReservationFingerprint(input), result), t.stored + config.idempotencyTtlMs)];
      r := Ok(result);
    }

    method Reserve(session: string, value: Json, key: Json, evidence: Option<string>, t: Readings, id: string)
      returns (r: Result<ReservationResult, Code>)
      modifies this
      ensures (r, State()) == PartsLedger.Reserve(config, old(State()), session, value, key, evidence, t, id)
    {
      hide Swept, ReserveInput, ReserveChecked;
      Sweep(t.swept);
      if session !in sessions { return Err(AuthRequired); }
      var checked := ReserveInput(parts, value, key);
      if checked.Err? { return Err(checked.error); }
      var (input, part, idempotencyKey) := checked.value;
      var scope := Scope(sessions[session].value.userId, idempotencyKey);
      r := RepeatOrReserve(session, scope, input, part, idempotencyKey, evidence, t, id);
    }

    /** `reserve` after the checks of its input. */
    method RepeatOrReserve(session: string, scope: string, input: ReservationInput, part: nat, key: string,
      evidence: Option<string>, t: Readings, id: string) returns (r: Result<ReservationResult, Code>)
      requires part < |parts|
      modifies this
      ensures (r, State())
           == ReserveChecked(config, old(State()), session, scope, input, part, key, evidence, t, id)
    {
      hide ReservationFingerprint, ReserveEffect;
      var fingerprint := ReservationFingerprint(input);
      if scope in idempotency {
        var prior := idempotency[scope].value;
        if prior.fingerprint != fingerprint { return Err(IdempotencyConflict); }
        return Ok(prior.result);
      }
      if Given(evidence).Some? {
        var e := evidence.value;
        if !(e in confirmations && confirmations[e].value.session == session
             && confirmations[e].value.idempotencyKey == key
             && confirmations[e].value.fingerprint == fingerprint && confirmations[e].expiresAt > t.confirmed) {
          return Err(ConfirmationInvalid);
        }
      }
      var p := parts[part];
      if p.onHand - p.reserved < input.quantity { return Err(InsufficientStock); }
      if |reservations| >= config.maxReservations { return Err(CapacityExceeded); }
      if |idempotency| >= config.maxIdempotency { return Err(CapacityExceeded); }
      r := Commit(scope, input, part, evidence, t, id);
    }

    method Release(session: string, id: Json, t0: int, t1: int) returns (r: Result<Reservation, Code>)
      modifies this
      ensures (r, State()) == PartsLedger.Release(config, old(State()), session, id, t0, t1)
    {
      hide Swept, BoundedString;
      Sweep(t0);
      if session !in sessions { return Err(AuthRequired); }
      var reservationId := BoundedString(id, 1, 128);
      if reservationId.Err? { return Err(reservationId.error); }
      var found := FindReservation(reservations, reservationId.value);
      if found.None? { return Err(NotFound); }
      var reservation := reservations[found.value];
      if reservation.status == Reserved {
        var part := FindPart(parts, reservation.sku);
        if part.None? { return Err(NotFound); }
        var p := parts[part.value];
        parts := parts[part.value := p.(reserved := Max(0, p.reserved - reservation.quantity))];
        reservation := reservation.(status := Released, releasedAt := config.iso(t1));
        reservations := reservations[found.value := reservation];
      }
      r := Ok(reservation);
    }

    method ListParts(session: string, query: Option<string>, t0: int) returns (r: Result<seq<Summary>, Code>)
      modifies this
      ensures (r, State()) == PartsLedger.ListParts(config, old(State()), session, query, t0)
    {
      hide Swept, BoundedString, Wanted;
      Sweep(t0);
      if session !in sessions { return Err(AuthRequired); }
      var normalized := "";
      if query.Some? && query.value != "" {
        var bounded := BoundedString(Str(query.value), 1, 120);
        if bounded.Err? { return Err(bounded.error); }
        normalized := config.lower(bounded.value);
      }
      var all := Summaries(config, parts, normalized);
      r := Ok(FirstOf(all, LIST_LIMIT));
    }
  }
}
