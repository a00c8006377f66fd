/** Whole runs of the parts console: any calls, with readings of a clock that does not go back and fresh identifiers. */
module PartsRuns {
  import opened Wrappers
  import opened Unicode
  import opened JsonText
  import opened Validation
  import opened Expiring
  import opened Idempotency
  import opened PartsLedger
  import opened PartsSafety
  import Collections

  datatype Call =
    | CallLogin(email: Json, password: Json, t0: int, t1: int, session: string, token: string)
    | CallLogout(session: string, t0: int)
    | CallConfirm(session: string, value: Json, t0: int, t1: int, t2: int, id: string)
    | CallReserve(session: string, value: Json, key: Json, evidence: Option<string>, t: Readings, id: string)
    | CallRelease(session: string, reservation: Json, t0: int, t1: int)
    /** Any call that only sweeps and reads. */
    | CallRead(t0: int)

  function First(e: Call): int
  {
    if e.CallReserve? then e.t.swept else e.t0
  }

  function Last(e: Call): int
  {
    match e
    case CallLogin(_, _, _, t1, _, _) => t1
    case CallLogout(_, t0) => t0
    case CallConfirm(_, _, _, _, t2, _) => t2
    case CallReserve(_, _, _, _, t, _) => t.stored
    case CallRelease(_, _, _, t1) => t1
    case CallRead(t0) => t0
  }

  predicate OrderedReadings(e: Call)
  {
    match e
    case CallLogin(_, _, t0, t1, _, _) => t0 <= t1
    case CallLogout(_, _) => true
    case CallConfirm(_, _, t0, t1, t2, _) => t0 <= t1 <= t2
    case CallReserve(_, _, _, _, t, _) => t.swept <= t.confirmed <= t.created <= t.stored
    case CallRelease(_, _, t0, t1) => t0 <= t1
    case CallRead(_) => true
  }

  function After(c: Config, s: Console, e: Call): Console
  {
    match e
    case CallLogin(email, password, t0, t1, session, token) => Login(c, s, email, password, t0, t1, session, token).1
    case CallLogout(session, t0) => Logout(s, session, t0)
    case CallConfirm(session, value, t0, t1, t2, id) => IssueConfirmation(c, s, session, value, t0, t1, t2, id).1
    case CallReserve(session, value, key, evidence, t, id) => Reserve(c, s, session, value, key, evidence, t, id).1
    case CallRelease(session, reservation, t0, t1) => Release(c, s, session, reservation, t0, t1).1
    case CallRead(t0) => Swept(s, t0)
  }

  type Making = Creation<ReservationInput, ReservationResult>

  /** The reservation a call makes, if it makes one. */
  function Created(c: Config, s: Console, e: Call): Option<Making>
  {
    if !e.CallReserve? then None
    else
      var s1 := Swept(s, e.t.swept);
      if e.session !in s1.sessions then None
      else
        match ReserveInput(s1.parts, e.value, e.key)
        case Err(_) => None
        case Ok((input, part, key)) =>
          var user := s1.sessions[e.session].value.userId;
          if Scope(user, key) in s1.idempotency
            || ReserveRefusal(c, s1, e.session, input, part, key, e.evidence, e.t.confirmed).Some? then None
          else
            Some(Creation(
              user, key, input, ResultOf(NewReservation(c, input, e.t.created, e.id)), e.t.swept, e.t.stored))
  }

  datatype History = History(console: Console, created: seq<Making>)

  function Next(c: Config, h: History, e: Call): History
  {
    History(After(c, h.console, e), Grown(h.created, Created(c, h.console, e)))
  }

  function Run(c: Config, calls: seq<Call>): History
  {
    if calls == [] then History(FRESH, [])
    else Next(c, Run(c, calls[..|calls| - 1]), calls[|calls| - 1])
  }

  /** The clock does not go back, inside a call or between two. */
  ghost predicate Monotone(calls: seq<Call>)
  {
    && (forall i :: 0 <= i < |calls| ==> OrderedReadings(calls[i]))
    && (forall i, j :: 0 <= i < j < |calls| ==> Last(calls[i]) <= First(calls[j]))
  }

  /** Random identifiers never repeat. */
  ghost predicate FreshIds(calls: seq<Call>)
  {
    forall i, j :: 0 <= i < j < |calls| && calls[i].CallReserve? && calls[j].CallReserve? ==> calls[i].id != calls[j].id
  }

  // ---- Effects happen once ----

  /** A creation is remembered until it expires, and none follows under its key before that. */
  ghost predicate OnceOk(c: Config, h: History, clock: int)
  {
    && Kept(ReservationFingerprint, c.idempotencyTtlMs, h.console.idempotency, h.created, clock)
    && Backed(ReservationFingerprint, c.idempotencyTtlMs, h.console.idempotency, h.created)
    && Spaced(c.idempotencyTtlMs, h.created)
  }

  function Clock(calls: seq<Call>): int
  {
    if calls == [] then 0 else Last(calls[|calls| - 1])
  }

  lemma CreatedIsEffect(c: Config, s: Console, e: Call)
    requires e.CallReserve?
    ensures var s1 := Swept(s, e.t.swept);
      match Created(c, s, e)
      case None => After(c, s, e) == s1
      case Some(x) =>
        && x.swept == e.t.swept && x.stored == e.t.stored
        && ScopeOf(x) !in s1.idempotency
        && (After(c, s, e).idempotency
            == s1.idempotency[ScopeOf(x) := Stored(ReservationFingerprint, c.idempotencyTtlMs, x)])
  {
    hide Swept, ReserveInput, ReserveRefusal, ReservationFingerprint, Scope;
  }

  lemma OnlyReservationsCreate(c: Config, s: Console, e: Call)
    ensures !e.CallReserve? ==> Created(c, s, e).None?
  {
  }

  lemma MemoryAfterOther(c: Config, s: Console, e: Call)
    requires !e.CallReserve? && !e.CallConfirm?
    ensures After(c, s, e).idempotency == Unexpired(s.idempotency, First(e))
         || After(c, s, e).idempotency == s.idempotency
  {
    hide BoundedString, Unexpired, UnexpiredConfirmations, FindReservation, FindPart;
  }

  /** Only a reservation that is made changes what is remembered, otherwise than by the sweep. */
  lemma MemoryAfter(c: Config, s: Console, e: Call)
    requires OrderedReadings(e)
    ensures MemoryStep(ReservationFingerprint, c.idempotencyTtlMs, s.idempotency, After(c, s, e).idempotency,
      Created(c, s, e), First(e), Last(e))
  {
    hide Created, After, ReservationFingerprint, MemoryStep, Unexpired;
    assert First(e) <= Last(e);
    if e.CallReserve? {
      CreatedIsEffect(c, s, e);
    } else {
      OnlyReservationsCreate(c, s, e);
      if e.CallConfirm? {
        ConfirmMemory(c, s, e);
        return;
      }
      MemoryAfterOther(c, s, e);
    }
    StoreIsStep(ReservationFingerprint, c.idempotencyTtlMs, s.idempotency, After(c, s, e).idempotency,
      Created(c, s, e), First(e), Last(e));
  }

  /** A confirmation sweeps twice and stores no result. */
  lemma ConfirmMemory(c: Config, s: Console, e: Call)
    requires e.CallConfirm? && OrderedReadings(e)
    ensures MemoryStep(ReservationFingerprint, c.idempotencyTtlMs, s.idempotency, After(c, s, e).idempotency,
      None, First(e), Last(e))
  {
    hide NormalizeReservationRequest, ReservationFingerprint, FindPart, UnexpiredConfirmations;
  }

  lemma NextKeepsOnce(c: Config, h: History, e: Call, clock: int)
    requires OnceOk(c, h, clock) && clock <= First(e) && OrderedReadings(e)
    ensures OnceOk(c, Next(c, h, e), Last(e))
  {
    MemoryAfter(c, h.console, e);
    assert First(e) <= Last(e);
    hide Created, After, MemoryStep, Kept, Backed, Spaced, First, Last;
    StepKeepsOnce(ReservationFingerprint, c.idempotencyTtlMs, h.console.idempotency,
      After(c, h.console, e).idempotency, h.created, Created(c, h.console, e), clock, First(e), Last(e));
    StepKeepsBacked(ReservationFingerprint, c.idempotencyTtlMs, h.console.idempotency,
      After(c, h.console, e).idempotency, h.created, Created(c, h.console, e), First(e), Last(e));
  }

  /** Over every run: made reservations are remembered, and are a lifetime apart under one key. */
  lemma {:induction false} RunKeepsOnce(c: Config, calls: seq<Call>)
    requires Monotone(calls)
    ensures OnceOk(c, Run(c, calls), Clock(calls))
  {
    if calls != [] {
      var before, e := calls[..|calls| - 1], calls[|calls| - 1];
      RunKeepsOnce(c, before);
      hide Next, Remembers;
      if before == [] {
        NextKeepsOnce(c, History(FRESH, []), e, First(e));
      } else {
        NextKeepsOnce(c, Run(c, before), e, Clock(before));
      }
    }
  }

  /** Every session is the operator's, and so is every reservation that was made. */
  ghost predicate OneUser(h: History)
  {
    && (forall k :: k in h.console.sessions ==> h.console.sessions[k].value.userId == "operator")
    && (forall i :: 0 <= i < |h.created| ==> h.created[i].user == "operator")
  }

  lemma SessionsOfOperator(c: Config, s: Console, e: Call, k: string)
    requires k in After(c, s, e).sessions
    ensures After(c, s, e).sessions[k].value.userId == "operator"
         || (k in s.sessions && s.sessions[k] == After(c, s, e).sessions[k])
  {
    hide BoundedString, NormalizeReservationRequest, ReservationFingerprint, FindPart, ReserveInput, ReserveRefusal,
      FindReservation, UnexpiredConfirmations, Scope;
  }

  lemma CreatedBySession(c: Config, s: Console, e: Call)
    ensures Created(c, s, e).Some? ==>
      e.CallReserve? && e.session in s.sessions && Created(c, s, e).value.user == s.sessions[e.session].value.userId
  {
    hide ReserveInput, ReserveRefusal, ReservationFingerprint, Scope, UnexpiredConfirmations;
  }

  lemma NextHasOneUser(c: Config, h: History, e: Call)
    requires OneUser(h)
    ensures OneUser(Next(c, h, e))
  {
    hide After, Created;
    CreatedBySession(c, h.console, e);
    forall k | k in After(c, h.console, e).sessions
      ensures After(c, h.console, e).sessions[k].value.userId == "operator"
    {
      SessionsOfOperator(c, h.console, e, k);
    }
  }

  lemma {:induction false} RunHasOneUser(c: Config, calls: seq<Call>)
    ensures OneUser(Run(c, calls))
  {
    if calls != [] {
      hide Next, OneUser;
      RunHasOneUser(c, calls[..|calls| - 1]);
      NextHasOneUser(c, Run(c, calls[..|calls| - 1]), calls[|calls| - 1]);
    }
  }

  /** Two reservations made under one idempotency key are at least the key's lifetime apart. */
  lemma OncePerWindow(c: Config, calls: seq<Call>, i: nat, j: nat)
    requires Monotone(calls) && i < j < |Run(c, calls).created|
    requires Run(c, calls).created[i].key == Run(c, calls).created[j].key
    ensures Run(c, calls).created[i].stored + c.idempotencyTtlMs <= Run(c, calls).created[j].swept
  {
    RunKeepsOnce(c, calls);
    RunHasOneUser(c, calls);
    hide Run, Kept, Backed;
    assert UnderOneKey(Run(c, calls).created[i], Run(c, calls).created[j]);
  }

  /** The checks of a reservation's input, in their order, each with its code. */
  lemma ReserveInputExactly(parts: seq<Part>, value: Json, key: Json)
    ensures match NormalizeReservationInput(value)
      case Err(_) => ReserveInput(parts, value, key) == Err(ValidationError)
      case Ok(input) =>
        if forall i :: 0 <= i < |parts| ==> parts[i].sku != input.sku then
          ReserveInput(parts, value, key) == Err(NotFound)
        else if !input.confirmed then ReserveInput(parts, value, key) == Err(ConfirmationRequired)
        else if !key.Str? || !ProperKey(key.s) then ReserveInput(parts, value, key) == Err(IdempotencyRequired)
        else
          && ReserveInput(parts, value, key).Ok?
          && var (input', part, key') := ReserveInput(parts, value, key).value;
             input' == input && key' == key.s && parts[part].sku == input.sku
  {
    InputOrError(value);
    hide NormalizeReservationInput, ProperKey, NormalizeIdempotencyKey;
    if key.Str? {
      KeyExactly(key, IdempotencyRequired, key.s);
    }
    match NormalizeIdempotencyKey(key, IdempotencyRequired)
    case Ok(k) => KeyExactly(key, IdempotencyRequired, k);
    case Err(_) => KeyExactly(key, IdempotencyRequired, "");
  }

  /** Inside the lifetime, the same input gets the stored result and another input a conflict; neither has an effect. */
  lemma RepeatInWindow(c: Config, calls: seq<Call>, i: nat, session: string, value: Json, key: Json,
    evidence: Option<string>, t: Readings, id: string)
    requires Monotone(calls) && i < |Run(c, calls).created| && Clock(calls) <= t.swept
    requires t.swept < Run(c, calls).created[i].stored + c.idempotencyTtlMs
    requires session in Swept(Run(c, calls).console, t.swept).sessions
    requires ReserveInput(Run(c, calls).console.parts, value, key).Ok? && key == Str(Run(c, calls).created[i].key)
    ensures var x := Run(c, calls).created[i];
      var input := ReserveInput(Run(c, calls).console.parts, value, key).value.0;
      var same :=
        && x.input.sku == input.sku && x.input.quantity == input.quantity
        && x.input.orderReference == input.orderReference;
      Reserve(c, Run(c, calls).console, session, value, key, evidence, t, id)
        == (if same then Ok(x.result) else Err(IdempotencyConflict), Swept(Run(c, calls).console, t.swept))
  {
    hide ReserveInput, Run, ReserveRefusal, ReserveEffect, ReservationFingerprint, Scope, UnexpiredConfirmations,
      Spaced, Backed, Monotone;
    RunKeepsOnce(c, calls);
    RunHasOneUser(c, calls);
    var s, x := Run(c, calls).console, Run(c, calls).created[i];
    var input := ReserveInput(s.parts, value, key).value.0;
    ReserveInputExactly(s.parts, value, key);
    ReservationFingerprintInjective(x.input, input);
    SweptKeeps(s, t.swept);
    assert Remembers(ReservationFingerprint, c.idempotencyTtlMs, s.idempotency, x);
  }

  // ---- Stock ----

  lemma EffectKeepsStock(c: Config, s: Console, e: Call)
    requires Conserved(s)
    requires e.CallReserve? ==> FindReservation(s.reservations, ReservationId(e.id)).None?
    ensures Conserved(After(c, s, e))
  {
    hide StockConserved, Reserve, Release, BoundedString, NormalizeReservationRequest, ReservationFingerprint, FindPart,
      FindReservation, ReservationId, Unexpired, UnexpiredConfirmations;
    match e
    case CallReserve(session, value, key, evidence, t, id) =>
      ReserveKeepsStock(c, s, session, value, key, evidence, t, id);
    case CallRelease(session, reservation, t0, t1) =>
      ReleaseConserves(c, s, session, reservation, t0, t1);
    case _ =>
  }

  lemma CheckedKeepsStock(c: Config, s: Console, session: string, scope: string, input: ReservationInput, part: nat,
    key: string, evidence: Option<string>, t: Readings, id: string)
    requires Conserved(s) && FindReservation(s.reservations, ReservationId(id)).None?
    requires part < |s.parts| == 2 && s.parts[part].sku == input.sku && 1 <= input.quantity
    ensures Conserved(ReserveChecked(c, s, session, scope, input, part, key, evidence, t, id).1)
  {
    hide ReserveEffect, StockConserved, Confirms, ReservationFingerprint, FindReservation;
    if scope !in s.idempotency && ReserveRefusal(c, s, session, input, part, key, evidence, t.confirmed).None? {
      EffectConservesExactly(c, s, scope, input, part, evidence, t, id);
    }
  }

  lemma ReserveKeepsStock(c: Config, s: Console, session: string, value: Json, key: Json, evidence: Option<string>,
    t: Readings, id: string)
    requires Conserved(s) && FindReservation(s.reservations, ReservationId(id)).None?
    ensures Conserved(Reserve(c, s, session, value, key, evidence, t, id).1)
  {
    hide ReserveInput, ReserveChecked, PartConserved, FindReservation;
    var s1 := Swept(s, t.swept);
    if session in s1.sessions {
      match ReserveInput(s1.parts, value, key)
      case Err(_) =>
      case Ok((input, part, idempotencyKey)) =>
        var scope := Scope(s1.sessions[session].value.userId, idempotencyKey);
        CheckedKeepsStock(c, s1, session, scope, input, part, idempotencyKey, evidence, t, id);
    }
  }

  /** What one call can do to a reservation: nothing, or release it. */
  predicate Evolves(r: Reservation, r': Reservation)
  {
    || r' == r
    || (r.status == Reserved && r'.status == Released && r'.(status := Reserved, releasedAt := r.releasedAt) == r)
  }

  ghost predicate AllEvolve(rs: seq<Reservation>, rs': seq<Reservation>)
  {
    |rs| <= |rs'| && forall i :: 0 <= i < |rs| ==> Evolves(rs[i], rs'[i])
  }

  lemma CallEvolves(c: Config, s: Console, e: Call)
    requires e.CallReserve? ==> FindReservation(s.reservations, ReservationId(e.id)).None?
    ensures AllEvolve(s.reservations, After(c, s, e).reservations)
    ensures forall i :: |s.reservations| <= i < |After(c, s, e).reservations| ==>
      IssuedIn(c, e, After(c, s, e).reservations[i])
    ensures !e.CallReserve? ==> |After(c, s, e).reservations| == |s.reservations|
  {
    hide BoundedString, NormalizeReservationRequest, ReservationFingerprint, FindPart, ReserveInput, ReserveRefusal,
      ReservationId, Scope, Unexpired, UnexpiredConfirmations, FindReservation;
    match e
    case CallReserve(session, value, key, evidence, t, id) =>
      ReserveEvolves(c, s, session, value, key, evidence, t, id);
    case _ =>
  }

  lemma ReserveEvolves(c: Config, s: Console, session: string, value: Json, key: Json, evidence: Option<string>,
    t: Readings, id: string)
    requires FindReservation(s.reservations, ReservationId(id)).None?
    ensures var rs := Reserve(c, s, session, value, key, evidence, t, id).1.reservations;
      || rs == s.reservations
      || (exists r: Reservation ::
            r.reservationId == "RSV-" + id && r.createdAt == c.iso(t.created) && rs == s.reservations + [r])
  {
    hide ReserveInput, ReserveRefusal, ReservationFingerprint, Scope, Unexpired, UnexpiredConfirmations,
      FindReservation;
  }

  /** A reservation has the identifier of a call that asked for one, and the time that call read. */
  predicate IssuedBy(c: Config, calls: seq<Call>, r: Reservation)
  {
    exists i :: 0 <= i < |calls| && IssuedIn(c, calls[i], r)
  }

  predicate IssuedIn(c: Config, e: Call, r: Reservation)
  {
    e.CallReserve? && r.reservationId == "RSV-" + e.id && r.createdAt == c.iso(e.t.created)
  }

  lemma FreshForLast(c: Config, before: seq<Call>, e: Call, r: Reservation)
    requires FreshIds(before + [e]) && e.CallReserve? && IssuedBy(c, before, r)
    ensures r.reservationId != ReservationId(e.id)
  {
    var i: nat :| i < |before| && IssuedIn(c, before[i], r);
    assert (before + [e])[i] == before[i] && (before + [e])[|before|] == e;
    assert ReservationId(before[i].id)[4..] == before[i].id && ReservationId(e.id)[4..] == e.id;
  }

  lemma FreshLast(c: Config, before: seq<Call>, e: Call, rs: seq<Reservation>)
    requires FreshIds(before + [e]) && e.CallReserve?
    requires forall k :: 0 <= k < |rs| ==> IssuedBy(c, before, rs[k])
    ensures FindReservation(rs, ReservationId(e.id)).None?
  {
    hide FreshIds, IssuedBy, ReservationId;
    forall k | 0 <= k < |rs|
      ensures rs[k].reservationId != ReservationId(e.id)
    {
      FreshForLast(c, before, e, rs[k]);
    }
  }

  /** Over every run: every part's reserved stock is the sum of its outstanding reservations, and is there. */
  lemma {:induction false} RunConservesStock(c: Config, calls: seq<Call>)
    requires FreshIds(calls)
    ensures Conserved(Run(c, calls).console)
    ensures var rs := Run(c, calls).console.reservations; forall k :: 0 <= k < |rs| ==> IssuedBy(c, calls, rs[k])
  {
    if calls != [] {
      var before, e := calls[..|calls| - 1], calls[|calls| - 1];
      RunConservesStock(c, before);
      var s := Run(c, before).console;
      var rs, rs' := s.reservations, After(c, s, e).reservations;
      if e.CallReserve? {
        FreshLast(c, before, e, rs);
      }
      EffectKeepsStock(c, s, e);
      CallEvolves(c, s, e);
      hide After, Created, Conserved, ReservationId, FindReservation;
      assert Run(c, calls).console == After(c, s, e);
      forall k | 0 <= k < |rs'|
        ensures IssuedBy(c, calls, rs'[k])
      {
        if k < |rs| {
          assert IssuedBy(c, before, rs[k]) && Evolves(rs[k], rs'[k]);
          var i: nat :| i < |before| && IssuedIn(c, before[i], rs[k]);
          assert calls[i] == before[i] && IssuedIn(c, calls[i], rs'[k]);
        } else {
          assert calls[|calls| - 1] == e && IssuedIn(c, e, rs'[k]);
        }
      }
    }
  }

  lemma {:induction false} SummariesAre(c: Config, parts: seq<Part>, query: string, k: nat)
    requires k < |Summaries(c, parts, query)|
    ensures exists p :: p in parts && Wanted(c, p, query)
              && Summaries(c, parts, query)[k] == Summary(p.sku, p.name, p.onHand - p.reserved)
  {
    hide Wanted;
    if Wanted(c, parts[0], query) && k == 0 {
      assert parts[0] in parts;
    } else {
      SummariesAre(c, parts[1..], query, if Wanted(c, parts[0], query) then k - 1 else k);
      var p :| p in parts[1..] && Wanted(c, p, query)
        && Summaries(c, parts, query)[k] == Summary(p.sku, p.name, p.onHand - p.reserved);
      assert p in parts;
    }
  }

  /** Over every run, a listed part has as much available as is on hand and not in a reservation: never less than 0. */
  lemma AvailableNeverNegative(c: Config, calls: seq<Call>, session: string, query: Option<string>, t0: int, k: nat)
    requires FreshIds(calls)
    requires ListParts(c, Run(c, calls).console, session, query, t0).0.Ok?
    requires k < |ListParts(c, Run(c, calls).console, session, query, t0).0.value|
    ensures var listed := ListParts(c, Run(c, calls).console, session, query, t0).0.value[k];
      && 0 <= listed.available
      && exists seed :: seed in SEED_PARTS && listed.sku == seed.sku && listed.name == seed.name
           && listed.available == seed.onHand - Outstanding(Run(c, calls).console.reservations, seed.sku)
  {
    hide Run, Outstanding, IssuedBy, FreshIds, Summaries, BoundedString, Wanted, Swept;
    RunConservesStock(c, calls);
    var s := Run(c, calls).console;
    ListedFrom(c, s, session, query, t0, k);
    hide ListParts;
    var listed := ListParts(c, s, session, query, t0).0.value[k];
    var p :| p in s.parts && listed == Summary(p.sku, p.name, p.onHand - p.reserved);
    ConservedPart(s, p);
    assert p.(reserved := 0) in SEED_PARTS;
  }

  lemma ListedFrom(c: Config, s: Console, session: string, query: Option<string>, t0: int, k: nat)
    requires ListParts(c, s, session, query, t0).0.Ok? && k < |ListParts(c, s, session, query, t0).0.value|
    ensures var listed := ListParts(c, s, session, query, t0).0.value[k];
      exists p :: p in s.parts && listed == Summary(p.sku, p.name, p.onHand - p.reserved)
  {
    hide BoundedString, Wanted, Summaries, Unexpired, UnexpiredConfirmations;
    var normalized := if query.None? || query.value == "" then ""
                      else c.lower(BoundedString(Str(query.value), 1, 120).value);
    SummariesAre(c, s.parts, normalized, k);
  }

  lemma ConservedPart(s: Console, p: Part)
    requires Conserved(s) && p in s.parts
    ensures p.(reserved := 0) in SEED_PARTS && p.reserved == Outstanding(s.reservations, p.sku)
    ensures 0 <= p.reserved <= p.onHand
  {
    hide Outstanding;
    var i: nat :| i < |s.parts| && s.parts[i] == p;
    assert i == 0 || i == 1;
  }

  /** A reservation is for what was asked, and the result that was answered tells it. */
  predicate MadeOf(r: Reservation, x: Making)
  {
    && r.sku == x.input.sku && r.quantity == x.input.quantity && r.orderReference == x.input.orderReference
    && x.result == ResultOf(r)
  }

  /** A made reservation is the one more that the call leaves, and it answers with it. */
  lemma CreatedIsReserved(c: Config, s: Console, e: Call)
    requires e.CallReserve? && FindReservation(s.reservations, ReservationId(e.id)).None?
    ensures match Created(c, s, e)
      case None => After(c, s, e).reservations == s.reservations
      case Some(x) => exists r: Reservation :: MadeOf(r, x) && After(c, s, e).reservations == s.reservations + [r]
  {
    hide ReserveInput, ReserveRefusal, ReservationFingerprint, Scope, ReservationId, Unexpired, UnexpiredConfirmations,
      FindReservation;
    var made := Created(c, s, e);
    if made.Some? {
      assert MadeOf(NewReservation(c, made.value.input, e.t.created, e.id), made.value);
    }
  }

  /** The reservations are, one for one, the results that were first answered. */
  ghost predicate Made(rs: seq<Reservation>, xs: seq<Making>)
  {
    |xs| == |rs| && forall k :: 0 <= k < |xs| ==> MadeOf(rs[k], xs[k])
  }

  lemma MadeEvolves(rs: seq<Reservation>, rs': seq<Reservation>, xs: seq<Making>)
    requires Made(rs, xs) && AllEvolve(rs, rs') && |rs| == |rs'|
    ensures Made(rs', xs)
  {
    forall k | 0 <= k < |xs|
      ensures MadeOf(rs'[k], xs[k])
    {
      assert Evolves(rs[k], rs'[k]) && MadeOf(rs[k], xs[k]);
    }
  }

  lemma NextReservation(c: Config, h: History, e: Call)
    requires e.CallReserve? ==> FindReservation(h.console.reservations, ReservationId(e.id)).None?
    requires Made(h.console.reservations, h.created)
    ensures Made(Next(c, h, e).console.reservations, Next(c, h, e).created)
  {
    hide After, Created, FindReservation, Evolves, ReservationId, MadeOf;
    if e.CallReserve? {
      CreatedIsReserved(c, h.console, e);
    } else {
      hide Made;
      CallEvolves(c, h.console, e);
      OnlyReservationsCreate(c, h.console, e);
      MadeEvolves(h.console.reservations, Next(c, h, e).console.reservations, h.created);
    }
  }

  /** Over every run: each reservation was made by the one call that answered it first. */
  lemma {:induction false} ReservationsAreCreations(c: Config, calls: seq<Call>)
    requires FreshIds(calls)
    ensures Made(Run(c, calls).console.reservations, Run(c, calls).created)
  {
    if calls != [] {
      var before, e := calls[..|calls| - 1], calls[|calls| - 1];
      ReservationsAreCreations(c, before);
      RunConservesStock(c, before);
      hide Next, FindReservation, IssuedBy, Conserved, ReservationId, Made;
      if e.CallReserve? {
        FreshLast(c, before, e, Run(c, before).console.reservations);
      }
      NextReservation(c, Run(c, before), e);
    }
  }

  lemma EvolveTwice(rs: seq<Reservation>, rs': seq<Reservation>, rs'': seq<Reservation>)
    requires AllEvolve(rs, rs') && AllEvolve(rs', rs'')
    ensures AllEvolve(rs, rs'')
  {
    forall i | 0 <= i < |rs|
      ensures Evolves(rs[i], rs''[i])
    {
      assert Evolves(rs[i], rs'[i]) && Evolves(rs'[i], rs''[i]);
    }
  }

  /** A released reservation stays released, and no reservation is ever dropped or changed otherwise. */
  lemma {:induction false} ReleasedForGood(c: Config, calls: seq<Call>, more: seq<Call>)
    requires FreshIds(calls + more)
    ensures AllEvolve(Run(c, calls).console.reservations, Run(c, calls + more).console.reservations)
  {
    if more == [] {
      assert calls + more == calls;
    } else {
      var rest, e := more[..|more| - 1], more[|more| - 1];
      var before := calls + rest;
      assert (calls + more)[..|calls + more| - 1] == before && calls + more == before + [e];
      ReleasedForGood(c, calls, rest);
      RunConservesStock(c, before);
      hide FindReservation, IssuedBy, Conserved, ReservationId, After, Created, AllEvolve;
      var s := Run(c, before).console;
      if e.CallReserve? {
        FreshLast(c, before, e, s.reservations);
      }
      CallEvolves(c, s, e);
      EvolveTwice(Run(c, calls).console.reservations, s.reservations, After(c, s, e).reservations);
      assert Run(c, calls + more).console == After(c, s, e);
    }
  }

  // ---- Evidence ----

  /** Evidence that makes a reservation is one the session holds for its key and input, unexpired, and is then gone. */
  lemma EvidenceSpent(c: Config, s: Console, e: Call)
    requires Created(c, s, e).Some? && Given(e.evidence).Some?
    ensures var evidence := e.evidence.value;
      && evidence in s.confirmations && evidence !in After(c, s, e).confirmations && e.session in s.sessions
      && s.confirmations[evidence].value.session == e.session
      && s.confirmations[evidence].value.fingerprint == ReservationFingerprint(Created(c, s, e).value.input)
      && s.confirmations[evidence].value.idempotencyKey == Created(c, s, e).value.key
      && s.confirmations[evidence].expiresAt > e.t.confirmed
  {
    hide ReserveInput, ReservationFingerprint, Scope, PutReservation;
  }

  // ---- Reversal ----

  /** Releases, in the order they are asked for, each with its two readings of the clock. */
  function ReleaseEach(c: Config, s: Console, session: string, asked: seq<(string, int, int)>): Console
  {
    if asked == [] then s
    else
      var last := asked[|asked| - 1];
      Release(c, ReleaseEach(c, s, session, asked[..|asked| - 1]), session, Str(last.0), last.1, last.2).1
  }

  /** The session is there at every release, and `trim` and the bounds keep every identifier as it is. */
  ghost predicate Answered(s: Console, session: string, asked: seq<(string, int, int)>)
  {
    && session in s.sessions
    && forall i :: 0 <= i < |asked| ==>
         asked[i].1 < s.sessions[session].expiresAt && BoundedString(Str(asked[i].0), 1, 128) == Ok(asked[i].0)
  }

  lemma StockedIsFound(s: Console, sku: string)
    requires Conserved(s) && Stocked(sku)
    ensures FindPart(s.parts, sku).Some?
  {
    hide Outstanding;
    assert s.parts[0].sku == s.parts[0].(reserved := 0).sku && s.parts[1].sku == s.parts[1].(reserved := 0).sku;
  }

  /** Every reservation with one of these identifiers is released. */
  ghost predicate Gone(rs: seq<Reservation>, asked: seq<(string, int, int)>)
  {
    forall i, k :: 0 <= i < |rs| && 0 <= k < |asked| && rs[i].reservationId == asked[k].0 ==> rs[i].status == Released
  }

  lemma ReleaseOne(c: Config, s: Console, session: string, id: string, t0: int, t1: int)
    requires Conserved(s) && session in s.sessions && t0 < s.sessions[session].expiresAt
    requires BoundedString(Str(id), 1, 128) == Ok(id)
    ensures var s' := Release(c, s, session, Str(id), t0, t1).1;
      && session in s'.sessions && s'.sessions[session] == s.sessions[session]
      && AllEvolve(s.reservations, s'.reservations) && |s'.reservations| == |s.reservations|
      && Gone(s'.reservations, [(id, t0, t1)])
  {
    hide BoundedString, PartConserved, UnexpiredConfirmations, FindPart;
    var found := FindReservation(s.reservations, id);
    if found.Some? {
      assert Stocked(s.reservations[found.value].sku);
      StockedIsFound(s, s.reservations[found.value].sku);
    }
  }

  lemma EvolveOn(rs: seq<Reservation>, rs': seq<Reservation>, rs'': seq<Reservation>,
    asked: seq<(string, int, int)>, last: (string, int, int))
    requires AllEvolve(rs, rs') && AllEvolve(rs', rs'') && |rs| == |rs'| == |rs''|
    requires Gone(rs', asked) && Gone(rs'', [last])
    ensures AllEvolve(rs, rs'') && Gone(rs'', asked + [last])
  {
    EvolveTwice(rs, rs', rs'');
    forall i, k | 0 <= i < |rs''| && 0 <= k < |asked + [last]| && rs''[i].reservationId == (asked + [last])[k].0
      ensures rs''[i].status == Released
    {
      assert Evolves(rs'[i], rs''[i]);
      if k == |asked| {
        assert [last][0] == last;
      }
    }
  }

  /** Where some releases lead: conserved, the session kept, and what was asked for released. */
  ghost predicate ReleasedTo(s: Console, s': Console, session: string, asked: seq<(string, int, int)>)
    requires session in s.sessions
  {
    && Conserved(s') && session in s'.sessions && s'.sessions[session] == s.sessions[session]
    && |s'.reservations| == |s.reservations| && AllEvolve(s.reservations, s'.reservations)
    && Gone(s'.reservations, asked)
  }

  lemma ReleasedStep(c: Config, s: Console, s1: Console, session: string, before: seq<(string, int, int)>,
    last: (string, int, int))
    requires session in s.sessions && ReleasedTo(s, s1, session, before)
    requires last.1 < s.sessions[session].expiresAt && BoundedString(Str(last.0), 1, 128) == Ok(last.0)
    ensures ReleasedTo(s, Release(c, s1, session, Str(last.0), last.1, last.2).1, session, before + [last])
  {
    hide Release, Conserved, BoundedString, AllEvolve, Gone;
    ReleaseOne(c, s1, session, last.0, last.1, last.2);
    ReleaseConserves(c, s1, session, Str(last.0), last.1, last.2);
    EvolveOn(s.reservations, s1.reservations,
      Release(c, s1, session, Str(last.0), last.1, last.2).1.reservations, before, last);
  }

  lemma ReleasedNone(s: Console, session: string, asked: seq<(string, int, int)>)
    requires Conserved(s) && Answered(s, session, asked) && asked == []
    ensures session in s.sessions && ReleasedTo(s, s, session, asked)
  {
    hide Conserved, BoundedString;
  }

  lemma AnsweredInit(s: Console, session: string, asked: seq<(string, int, int)>)
    requires Answered(s, session, asked) && asked != []
    ensures session in s.sessions && Answered(s, session, asked[..|asked| - 1])
    ensures var last := asked[|asked| - 1];
      last.1 < s.sessions[session].expiresAt && BoundedString(Str(last.0), 1, 128) == Ok(last.0)
  {
    hide BoundedString;
  }

  lemma {:induction false} EachReleased(c: Config, s: Console, session: string, asked: seq<(string, int, int)>)
    requires Conserved(s) && Answered(s, session, asked)
    ensures ReleasedTo(s, ReleaseEach(c, s, session, asked), session, asked)
  {
    hide Release, Conserved, BoundedString, ReleasedTo, Answered;
    if asked == [] {
      ReleasedNone(s, session, asked);
    } else {
      var before, last := asked[..|asked| - 1], asked[|asked| - 1];
      AnsweredInit(s, session, asked);
      EachReleased(c, s, session, before);
      ReleasedStep(c, s, ReleaseEach(c, s, session, before), session, before, last);
      assert before + [last] == asked;
    }
  }

  /** Releasing every outstanding reservation, in any order and any number of times, restores the seed stock. */
  lemma ReleasingAllRestores(c: Config, s: Console, session: string, asked: seq<(string, int, int)>)
    requires Conserved(s) && Answered(s, session, asked)
    requires forall i :: 0 <= i < |s.reservations| && s.reservations[i].status == Reserved ==>
               exists k :: 0 <= k < |asked| && asked[k].0 == s.reservations[i].reservationId
    ensures ReleaseEach(c, s, session, asked).parts == SEED_PARTS
  {
    EachReleased(c, s, session, asked);
    hide ReleaseEach, Answered;
    var s' := ReleaseEach(c, s, session, asked);
    forall i | 0 <= i < |s'.reservations|
      ensures s'.reservations[i].status == Released
    {
      assert Evolves(s.reservations[i], s'.reservations[i]);
    }
    SeedWhenReleased(s');
  }

  lemma SeedWhenReleased(s: Console)
    requires Conserved(s) && forall i :: 0 <= i < |s.reservations| ==> s.reservations[i].status == Released
    ensures s.parts == SEED_PARTS
  {
    NothingOutstanding(s.reservations, s.parts[0].sku);
    NothingOutstanding(s.reservations, s.parts[1].sku);
    hide Outstanding;
    assert s.parts[0] == s.parts[0].(reserved := 0) && s.parts[1] == s.parts[1].(reserved := 0);
  }

  // ---- Bounds ----

  predicate Positive(c: Config)
  {
    c.maxSessions > 0 && c.maxConfirmations > 0 && c.maxIdempotency > 0 && c.maxReservations > 0
  }

  predicate Bounded(c: Config, s: Console)
  {
    && |s.sessions| <= c.maxSessions && |s.confirmations| <= c.maxConfirmations
    && |s.idempotency| <= c.maxIdempotency && |s.reservations| <= c.maxReservations
  }

  lemma SweptBounded(c: Config, s: Console, now: int)
    requires Bounded(c, s)
    ensures Bounded(c, Swept(s, now))
  {
    var sessions := Unexpired(s.sessions, now);
    UnexpiredSize(s.sessions, now);
    UnexpiredSize(s.idempotency, now);
    UnexpiredConfirmationsSize(s.confirmations, sessions.Keys, now);
    hide Unexpired, UnexpiredConfirmations;
  }

  lemma EffectSizes(c: Config, s: Console, scope: string, input: ReservationInput, part: nat,
    evidence: Option<string>, t: Readings, id: string)
    requires part < |s.parts|
    ensures var s' := ReserveEffect(c, s, scope, input, part, evidence, t, id);
      && s'.sessions == s.sessions && s'.confirmations.Keys <= s.confirmations.Keys
      && |s'.idempotency| <= |s.idempotency| + 1 && |s'.reservations| <= |s.reservations| + 1
  {
    hide ReservationFingerprint, FindReservation, ReservationId;
  }

  lemma EffectBounded(c: Config, s: Console, scope: string, input: ReservationInput, part: nat,
    evidence: Option<string>, t: Readings, id: string)
    requires Bounded(c, s) && part < |s.parts|
    requires |s.reservations| < c.maxReservations && |s.idempotency| < c.maxIdempotency
    ensures Bounded(c, ReserveEffect(c, s, scope, input, part, evidence, t, id))
  {
    hide ReserveEffect;
    EffectSizes(c, s, scope, input, part, evidence, t, id);
    Collections.SubsetSize(ReserveEffect(c, s, scope, input, part, evidence, t, id).confirmations.Keys,
      s.confirmations.Keys);
  }

  lemma CheckedBounded(c: Config, s: Console, session: string, scope: string, input: ReservationInput, part: nat,
    key: string, evidence: Option<string>, t: Readings, id: string)
    requires Bounded(c, s) && part < |s.parts|
    ensures Bounded(c, ReserveChecked(c, s, session, scope, input, part, key, evidence, t, id).1)
  {
    hide ReservationFingerprint, ReserveEffect, Bounded, Confirms, NewReservation;
    if scope !in s.idempotency && ReserveRefusal(c, s, session, input, part, key, evidence, t.confirmed).None? {
      EffectBounded(c, s, scope, input, part, evidence, t, id);
    }
  }

  lemma ReserveBounded(c: Config, s: Console, session: string, value: Json, key: Json, evidence: Option<string>,
    t: Readings, id: string)
    requires Bounded(c, Swept(s, t.swept))
    ensures Bounded(c, Reserve(c, s, session, value, key, evidence, t, id).1)
  {
    hide ReserveInput, ReserveChecked, Swept, Bounded;
    var s1 := Swept(s, t.swept);
    if session in s1.sessions && ReserveInput(s1.parts, value, key).Ok? {
      var (input, part, idempotencyKey) := ReserveInput(s1.parts, value, key).value;
      CheckedBounded(c, s1, session, Scope(s1.sessions[session].value.userId, idempotencyKey), input, part,
        idempotencyKey, evidence, t, id);
    }
  }

  lemma ConfirmBounded(c: Config, s: Console, session: string, value: Json, t0: int, t1: int, t2: int, id: string)
    requires Bounded(c, Swept(s, t0)) && Bounded(c, Swept(Swept(s, t0), t1))
    ensures Bounded(c, IssueConfirmation(c, s, session, value, t0, t1, t2, id).1)
  {
    hide NormalizeReservationRequest, ReservationFingerprint, FindPart, Swept;
  }

  lemma LogoutBounded(c: Config, s: Console, session: string, t0: int)
    requires Bounded(c, Swept(s, t0))
    ensures Bounded(c, Logout(s, session, t0))
  {
    hide Swept;
    var s1, s2 := Swept(s, t0), Logout(s, session, t0);
    Collections.SubsetSize(s2.sessions.Keys, s1.sessions.Keys);
    Collections.SubsetSize(s2.confirmations.Keys, s1.confirmations.Keys);
  }

  lemma AfterBounded(c: Config, s: Console, e: Call)
    requires Bounded(c, s)
    ensures Bounded(c, After(c, s, e))
  {
    hide Swept, BoundedString, Reserve, IssueConfirmation, Logout, FindReservation, FindPart;
    SweptBounded(c, s, First(e));
    match e
    case CallReserve(session, value, key, evidence, t, id) =>
      ReserveBounded(c, s, session, value, key, evidence, t, id);
    case CallConfirm(session, value, t0, t1, t2, id) =>
      SweptBounded(c, Swept(s, t0), t1);
      ConfirmBounded(c, s, session, value, t0, t1, t2, id);
    case CallLogout(session, t0) =>
      LogoutBounded(c, s, session, t0);
    case _ =>
  }

  /** Over every run no map and no list outgrows its capacity. */
  lemma {:induction false} RunBounded(c: Config, calls: seq<Call>)
    requires Positive(c)
    ensures Bounded(c, Run(c, calls).console)
  {
    if calls != [] {
      hide After, Created, Bounded;
      RunBounded(c, calls[..|calls| - 1]);
      AfterBounded(c, Run(c, calls[..|calls| - 1]).console, calls[|calls| - 1]);
    } else {
      hide Next;
    }
  }

  // ---- A confirmation is honoured ----

  /**
   A reservation that is asked for as it was confirmed, by the session that confirmed it, under a key with no
   remembered result, is made exactly when it is marked confirmed and stock and room are there, as long as session and
   confirmation have not expired.
   */
  lemma ConfirmedReservationIsMade(c: Config, s: Console, session: string, value: Json, t0: int, t1: int, t2: int,
    id: string, t: Readings, reservationId: string)
    requires IssueConfirmation(c, s, session, value, t0, t1, t2, id).0.Ok?
    requires var s1 := IssueConfirmation(c, s, session, value, t0, t1, t2, id).1;
      && session in s1.sessions && t.swept < s1.sessions[session].expiresAt
      && t.swept <= t.confirmed < t2 + c.confirmationTtlMs
      && (Scope(s1.sessions[session].value.userId, NormalizeReservationRequest(value).value.1)
          !in Swept(s1, t.swept).idempotency)
    ensures var s1 := IssueConfirmation(c, s, session, value, t0, t1, t2, id).1;
      var input := NormalizeReservationRequest(value).value.0;
      var part := s1.parts[FindPart(s1.parts, input.sku).value];
      Reserve(c, s1, session, value.fields["input"], value.fields["idempotencyKey"], Some(Evidence(id)), t,
        reservationId).0.Ok?
      <==> input.confirmed && input.quantity <= part.onHand - part.reserved
           && |s1.reservations| < c.maxReservations && |Swept(s1, t.swept).idempotency| < c.maxIdempotency
  {
    hide NormalizeReservationInput, NormalizeIdempotencyKey, ReservationFingerprint, Scope, FindPart;
    SameKey(value.fields["idempotencyKey"]);
    assert Evidence(id)[..4] == "cnf_";
    assert Evidence(id) != "";
  }

  /** The code a malformed key fails with is all that differs between the two checks of it. */
  lemma SameKey(key: Json)
    ensures NormalizeIdempotencyKey(key, ValidationError).Ok? ==>
      NormalizeIdempotencyKey(key, IdempotencyRequired) == NormalizeIdempotencyKey(key, ValidationError)
  {
  }

  /**
   Over every run, a reservation that is asked for as it was confirmed, by the session that confirmed it, under a key
   that is free, is made exactly when it is marked confirmed and stock and room are there, whatever was made under
   other keys.
   */
  lemma {:induction false} ConfirmedUnderFreeKey(c: Config, calls: seq<Call>, e: Call, t: Readings,
    reservationId: string)
    requires e.CallConfirm? && Monotone(calls + [e])
    requires IssueConfirmation(c, Run(c, calls).console, e.session, e.value, e.t0, e.t1, e.t2, e.id).0.Ok?
    requires var s := Run(c, calls).console;
      e.session in s.sessions && e.t2 <= t.swept < s.sessions[e.session].expiresAt
    requires t.swept <= t.confirmed < e.t2 + c.confirmationTtlMs
    requires Free(c.idempotencyTtlMs, Run(c, calls).created, "operator", NormalizeReservationRequest(e.value).value.1,
               t.swept)
    ensures var s := Run(c, calls).console;
      var input := NormalizeReservationRequest(e.value).value.0;
      var part := s.parts[FindPart(s.parts, input.sku).value];
      Reserve(c, After(c, s, e), e.session, e.value.fields["input"], e.value.fields["idempotencyKey"],
        Some(Evidence(e.id)), t, reservationId).0.Ok?
      <==> input.confirmed && input.quantity <= part.onHand - part.reserved
           && |s.reservations| < c.maxReservations && |Swept(s, t.swept).idempotency| < c.maxIdempotency
  {
    hide Run, After, Reserve, IssueConfirmation, Swept, NormalizeReservationRequest, OrderedReadings, FindPart, Scope,
      Created, Unexpired;
    var s := Run(c, calls).console;
    IssuedMeans(c, s, e, calls);
    assert First(e) <= t.swept by { LastReading(e); }
    FreeAfterRun(c, calls, e, NormalizeReservationRequest(e.value).value.1, t.swept);
    assert s.sessions[e.session].value.userId == "operator";
    ConfirmedNext(c, s, e, t, reservationId);
  }

  lemma LastReading(e: Call)
    requires OrderedReadings(e)
    ensures First(e) <= Last(e)
  {
  }

  lemma IssuedMeans(c: Config, s: Console, e: Call, calls: seq<Call>)
    requires e.CallConfirm? && Monotone(calls + [e])
    requires IssueConfirmation(c, s, e.session, e.value, e.t0, e.t1, e.t2, e.id).0.Ok?
    ensures NormalizeReservationRequest(e.value).Ok? && OrderedReadings(e)
  {
    hide NormalizeReservationRequest, ReservationFingerprint, Unexpired, UnexpiredConfirmations;
    assert (calls + [e])[|calls|] == e;
  }

  /** The same, of one state in which nothing unexpired is remembered under the key. */
  lemma ConfirmedNext(c: Config, s: Console, e: Call, t: Readings, reservationId: string)
    requires e.CallConfirm? && OrderedReadings(e)
    requires IssueConfirmation(c, s, e.session, e.value, e.t0, e.t1, e.t2, e.id).0.Ok?
    requires e.session in s.sessions && e.t2 <= t.swept < s.sessions[e.session].expiresAt
    requires t.swept <= t.confirmed < e.t2 + c.confirmationTtlMs
    requires Scope(s.sessions[e.session].value.userId, NormalizeReservationRequest(e.value).value.1)
          !in Unexpired(s.idempotency, t.swept)
    ensures var input := NormalizeReservationRequest(e.value).value.0;
      && FindPart(s.parts, input.sku).Some?
      && var part := s.parts[FindPart(s.parts, input.sku).value];
      Reserve(c, After(c, s, e), e.session, e.value.fields["input"], e.value.fields["idempotencyKey"],
        Some(Evidence(e.id)), t, reservationId).0.Ok?
      <==> input.confirmed && input.quantity <= part.onHand - part.reserved
           && |s.reservations| < c.maxReservations && |Swept(s, t.swept).idempotency| < c.maxIdempotency
  {
    hide Reserve, NormalizeReservationRequest, FindPart, Scope, UnexpiredConfirmations, Unexpired, Created,
      ReservationFingerprint;
    ConfirmSweepsTwice(c, s, e, t.swept);
    ConfirmedReservationIsMade(c, s, e.session, e.value, e.t0, e.t1, e.t2, e.id, t, reservationId);
  }

  lemma NothingAtFirst(c: Config)
    ensures Run(c, []).created == [] && Run(c, []).console.idempotency == map[]
  {
  }

  lemma {:induction false} FreeAfterRun(c: Config, calls: seq<Call>, e: Call, key: string, now: int)
    requires Monotone(calls + [e]) && First(e) <= now
    ensures Scope("operator", key) !in Unexpired(Run(c, calls).console.idempotency, now)
       <==> Free(c.idempotencyTtlMs, Run(c, calls).created, "operator", key, now)
    ensures OneUser(Run(c, calls))
  {
    hide Run, First, OrderedReadings, Scope, Kept, Backed, Free;
    var all := calls + [e];
    assert all[|calls|] == e && forall i :: 0 <= i < |calls| ==> all[i] == calls[i];
    RunKeepsOnce(c, calls);
    RunHasOneUser(c, calls);
    NothingAtFirst(c);
    FreeExactly(ReservationFingerprint, c.idempotencyTtlMs, Run(c, calls).console.idempotency, Run(c, calls).created,
      if calls == [] then now else Clock(calls), "operator", key, now);
  }

  /** What a confirmation that is issued leaves for a later sweep. */
  lemma ConfirmSweepsTwice(c: Config, s: Console, e: Call, now: int)
    requires e.CallConfirm? && e.t0 <= e.t1 <= now && e.session in s.sessions && s.sessions[e.session].expiresAt > now
    requires IssueConfirmation(c, s, e.session, e.value, e.t0, e.t1, e.t2, e.id).0.Ok?
    ensures var s1 := After(c, s, e);
      && s1.parts == s.parts && s1.reservations == s.reservations
      && Unexpired(s1.idempotency, now) == Unexpired(s.idempotency, now)
      && e.session in s1.sessions && s1.sessions[e.session] == s.sessions[e.session]
  {
    hide NormalizeReservationRequest, ReservationFingerprint, FindPart, UnexpiredConfirmations;
  }

  /** The answer to a reservation under a free key, said of its state. */
  function FreshAnswer(c: Config, s: Console, session: string, input: ReservationInput, p: Part, key: string,
    evidence: Option<string>, t: Readings, id: string): Result<ReservationResult, Code>
  {
    if evidence.Some? && |evidence.value| > 0
      && !(evidence.value in s.confirmations && s.confirmations[evidence.value].expiresAt > t.confirmed
           && s.confirmations[evidence.value].value.session == session
           && s.confirmations[evidence.value].value.idempotencyKey == key
           && s.confirmations[evidence.value].value.fingerprint == ReservationFingerprint(input)) then
      Err(ConfirmationInvalid)
    else if p.onHand - p.reserved < input.quantity then Err(InsufficientStock)
    else if |s.reservations| >= c.maxReservations || |Unexpired(s.idempotency, t.swept)| >= c.maxIdempotency then
      Err(CapacityExceeded)
    else
      Ok(ReservationResult("RSV-" + id, input.sku, input.quantity, input.orderReference, c.iso(t.created)))
  }

  lemma FreshReserve(c: Config, s: Console, session: string, value: Json, key: Json, evidence: Option<string>,
    t: Readings, id: string)
    requires session in s.sessions && t.swept < s.sessions[session].expiresAt && t.swept <= t.confirmed
    requires ReserveInput(s.parts, value, key).Ok?
    requires Scope(s.sessions[session].value.userId, ReserveInput(s.parts, value, key).value.2)
          !in Unexpired(s.idempotency, t.swept)
    ensures var (input, part, k) := ReserveInput(s.parts, value, key).value;
      Reserve(c, s, session, value, key, evidence, t, id).0
      == FreshAnswer(c, s, session, input, s.parts[part], k, evidence, t, id)
  {
    hide ReserveInput, ReservationFingerprint, Scope, ReserveEffect;
  }

  /**
   Over every run, the answer to any reservation under a free key, whatever was made under other keys: evidence that was
   given has to be what the session was issued for this input and key, then stock has to be there, and then room.
   */
  lemma {:induction false} ReservedUnderFreeKey(c: Config, calls: seq<Call>, e: Call)
    requires e.CallReserve? && Monotone(calls + [e])
    requires var s := Run(c, calls).console;
      && e.session in s.sessions && e.t.swept < s.sessions[e.session].expiresAt
      && ReserveInput(s.parts, e.value, e.key).Ok?
      && Free(c.idempotencyTtlMs, Run(c, calls).created, "operator", ReserveInput(s.parts, e.value, e.key).value.2,
           e.t.swept)
    ensures var s := Run(c, calls).console;
      var (input, part, k) := ReserveInput(s.parts, e.value, e.key).value;
      Reserve(c, s, e.session, e.value, e.key, e.evidence, e.t, e.id).0
      == FreshAnswer(c, s, e.session, input, s.parts[part], k, e.evidence, e.t, e.id)
  {
    hide Run, Reserve, ReserveInput, Scope, Unexpired, FreshAnswer;
    var s := Run(c, calls).console;
    assert (calls + [e])[|calls|] == e;
    FreeAfterRun(c, calls, e, ReserveInput(s.parts, e.value, e.key).value.2, e.t.swept);
    FreshReserve(c, s, e.session, e.value, e.key, e.evidence, e.t, e.id);
  }
}
