/** Whole runs of the parts console again: how long a session lasts, and that evidence is spent once. */
module PartsAccounts {
  import opened Wrappers
  import opened JsonText
  import opened Validation
  import opened Expiring
  import opened Idempotency
  import opened EvidenceAccounts
  import opened PartsLedger
  import opened PartsRuns

  // ---- Sessions ----

  /** The call neither ends this session nor logs in under its token again. */
  predicate Leaves(e: Call, session: string)
  {
    match e
    case CallLogin(_, _, _, _, token, _) => token != session
    case CallLogout(token, _) => token != session
    case _ => true
  }

  /** The session is known with this expiry, for as long as that has not passed. */
  predicate Known(sessions: map<string, Held<Session>>, session: string, expiresAt: int, clock: int)
  {
    && (session in sessions ==> sessions[session].expiresAt == expiresAt)
    && (clock < expiresAt ==> session in sessions)
  }

  lemma SweptKnown(m: map<string, Held<Session>>, session: string, expiresAt: int, clock: int, now: int)
    requires Known(m, session, expiresAt, clock) && clock <= now
    ensures Known(Unexpired(m, now), session, expiresAt, now)
  {
  }

  /** What a call leaves of the sessions: those that its readings sweep, and one more or less. */
  lemma SessionsAfter(c: Config, s: Console, e: Call)
    ensures var m := Unexpired(s.sessions, First(e));
      var m' := After(c, s, e).sessions;
      match e
      case CallLogin(_, _, _, _, token, _) =>
        m' == s.sessions || m' == m || (token in m' && m' == m[token := m'[token]])
      case CallLogout(token, _) => m' == m - {token}
      case CallConfirm(_, _, _, t1, _, _) => m' == m || m' == Unexpired(m, t1)
      case _ => m' == m
  {
    hide BoundedString, NormalizeReservationRequest, ReservationFingerprint, FindPart, ReserveInput, ReserveRefusal,
      FindReservation, Unexpired, UnexpiredConfirmations;
  }

  lemma CallKnown(c: Config, s: Console, e: Call, session: string, expiresAt: int, clock: int)
    requires Known(s.sessions, session, expiresAt, clock) && clock <= First(e) && OrderedReadings(e)
    requires Leaves(e, session)
    ensures Known(After(c, s, e).sessions, session, expiresAt, Last(e))
  {
    hide After, Unexpired;
    SessionsAfter(c, s, e);
    SweptKnown(s.sessions, session, expiresAt, clock, First(e));
    if e.CallConfirm? {
      SweptKnown(Unexpired(s.sessions, First(e)), session, expiresAt, First(e), e.t1);
    }
  }

  /** What is known of a session after some calls. */
  predicate KnownAfter(c: Config, calls: seq<Call>, session: string, expiresAt: int)
  {
    Known(Run(c, calls).console.sessions, session, expiresAt, Clock(calls))
  }

  lemma {:induction false} StaysKnown(c: Config, calls: seq<Call>, more: seq<Call>, session: string, expiresAt: int)
    requires Monotone(calls + more) && calls != []
    requires KnownAfter(c, calls, session, expiresAt)
    requires forall i :: 0 <= i < |more| ==> Leaves(more[i], session)
    ensures KnownAfter(c, calls + more, session, expiresAt)
  {
    hide Known, After, Created, First, Last, OrderedReadings, Leaves;
    if more == [] {
      assert calls + more == calls;
    } else {
      var rest, e := more[..|more| - 1], more[|more| - 1];
      var before := calls + rest;
      assert calls + more == before + [e];
      MonotoneInit(before, e);
      StaysKnown(c, calls, rest, session, expiresAt);
      CallKnown(c, Run(c, before).console, e, session, expiresAt, Clock(before));
      assert (before + [e])[..|before + [e]| - 1] == before;
    }
  }

  lemma MonotoneInit(before: seq<Call>, e: Call)
    requires Monotone(before + [e])
    ensures Monotone(before) && OrderedReadings(e) && (before != [] ==> Clock(before) <= First(e))
  {
    hide OrderedReadings, First, Last;
    var calls := before + [e];
    assert calls[|before|] == e && forall i :: 0 <= i < |before| ==> calls[i] == before[i];
  }

  /** The call is a login that succeeds from here. */
  predicate LogsIn(c: Config, s: Console, e: Call)
  {
    e.CallLogin? && Login(c, s, e.email, e.password, e.t0, e.t1, e.session, e.token).0.Ok?
  }

  lemma LoginKnown(c: Config, calls: seq<Call>, e: Call)
    requires LogsIn(c, Run(c, calls).console, e)
    ensures e.CallLogin? && KnownAfter(c, calls + [e], e.session, e.t1 + c.sessionTtlMs)
  {
    hide BoundedString, Swept, Created;
    assert (calls + [e])[..|calls|] == calls;
  }

  lemma KnownFound(c: Config, calls: seq<Call>, session: string, expiresAt: int, now: int)
    requires KnownAfter(c, calls, session, expiresAt) && Clock(calls) <= now
    ensures session in Swept(Run(c, calls).console, now).sessions <==> now < expiresAt
  {
    hide UnexpiredConfirmations, Run, Clock;
  }

  /**
   Over every run, a session is found from its login until its lifetime has passed and not after, whatever other calls
   are made in between, unless one of them logs it out or logs in under its token.
   */
  lemma {:induction false} SessionLasts(c: Config, calls: seq<Call>, login: Call, more: seq<Call>, now: int)
    requires Monotone(calls + [login] + more) && login.CallLogin? && LogsIn(c, Run(c, calls).console, login)
    requires forall i :: 0 <= i < |more| ==> Leaves(more[i], login.session)
    requires Clock(calls + [login] + more) <= now
    ensures login.session in Swept(Run(c, calls + [login] + more).console, now).sessions
       <==> now < login.t1 + c.sessionTtlMs
  {
    hide Monotone, LogsIn, KnownAfter, Leaves, Run, Clock;
    LoginKnown(c, calls, login);
    StaysKnown(c, calls + [login], more, login.session, login.t1 + c.sessionTtlMs);
    KnownFound(c, calls + [login] + more, login.session, login.t1 + c.sessionTtlMs, now);
  }

  // ---- Evidence ----

  function Issued(c: Config, s: Console, e: Call): Option<Issue>
  {
    if !e.CallConfirm? then None
    else
      match NormalizeReservationRequest(e.value)
      case Err(_) => None
      case Ok((input, key)) =>
        if IssueConfirmation(c, s, e.session, e.value, e.t0, e.t1, e.t2, e.id).0.Err? then None
        else
          Some(Issue(Evidence(e.id),
            Held(Confirmation(e.session, ReservationFingerprint(input), key), e.t2 + c.confirmationTtlMs)))
  }

  /** The evidence a call spends on the reservation it makes, if it makes one and was given evidence. */
  function Spent(c: Config, s: Console, e: Call): Option<Spend>
  {
    if Created(c, s, e).None? || Given(e.evidence).None? then None
    else
      var (input, _, key) := ReserveInput(s.parts, e.value, e.key).value;
      Some(Spend(e.evidence.value, Confirmation(e.session, ReservationFingerprint(input), key), e.t.swept))
  }

  /** A reservation that was made, with what was spent on it. */
  datatype Paid = Paid(spend: Spend, made: Making)

  datatype Accounts = Accounts(issued: seq<Issue>, spent: seq<Spend>, paid: seq<Paid>)

  function PaidBy(c: Config, s: Console, e: Call): Option<Paid>
  {
    if Spent(c, s, e).None? then None else Some(Paid(Spent(c, s, e).value, Created(c, s, e).value))
  }

  /** The accounts of a run. */
  function Ledger(c: Config, calls: seq<Call>): Accounts
  {
    if calls == [] then Accounts([], [], [])
    else
      var s, e, a := Run(c, calls[..|calls| - 1]).console, calls[|calls| - 1], Ledger(c, calls[..|calls| - 1]);
      Accounts(Grown(a.issued, Issued(c, s, e)), Grown(a.spent, Spent(c, s, e)), Grown(a.paid, PaidBy(c, s, e)))
  }

  /** Random identifiers of confirmations never repeat. */
  ghost predicate FreshEvidence(calls: seq<Call>)
  {
    forall i, j :: 0 <= i < j < |calls| && calls[i].CallConfirm? && calls[j].CallConfirm? ==> calls[i].id != calls[j].id
  }

  /** What is left of the confirmations once a call has swept and dropped what it does. */
  function Base(c: Config, s: Console, e: Call): map<string, Held<Confirmation>>
  {
    if Issued(c, s, e).Some? then Swept(Swept(s, e.t0), e.t1).confirmations
    else if e.CallReserve? then Swept(s, e.t.swept).confirmations
    else After(c, s, e).confirmations
  }

  lemma ConfirmAfter(c: Config, s: Console, e: Call)
    requires Issued(c, s, e).Some?
    ensures var x := Issued(c, s, e).value;
      && e.CallConfirm? && x.evidence == Evidence(e.id)
      && After(c, s, e).confirmations == Base(c, s, e)[x.evidence := x.held]
  {
    hide NormalizeReservationRequest, ReservationFingerprint, FindPart, Evidence, Swept;
  }

  lemma ReserveAfter(c: Config, s: Console, e: Call)
    requires e.CallReserve?
    ensures match Spent(c, s, e)
      case None => After(c, s, e).confirmations == Base(c, s, e)
      case Some(w) =>
        var m := Base(c, s, e);
        && w.evidence in m && After(c, s, e).confirmations == m - {w.evidence} && m[w.evidence].value == w.confirmed
        && m[w.evidence].expiresAt > w.swept
  {
    hide ReserveInput, ReservationFingerprint, Scope, PutReservation, Unexpired;
  }

  lemma BaseWithin(c: Config, s: Console, e: Call)
    ensures Within(Base(c, s, e), s.confirmations)
  {
    hide NormalizeReservationRequest, BoundedString, ReservationFingerprint, FindPart, ReserveInput, ReserveChecked,
      FindReservation, Evidence;
  }

  lemma NothingSpent(c: Config, s: Console, e: Call)
    ensures e.CallReserve? ==> Issued(c, s, e).None?
    ensures !e.CallReserve? ==> Spent(c, s, e).None?
  {
    hide NormalizeReservationRequest, ReserveInput, ReserveRefusal;
  }

  lemma NextAccounted(c: Config, s: Console, e: Call, issued: seq<Issue>, spent: seq<Spend>)
    requires Accounted(s.confirmations, issued, spent)
    requires e.CallConfirm? ==> Unissued(issued, Evidence(e.id))
    ensures Accounted(After(c, s, e).confirmations, Grown(issued, Issued(c, s, e)), Grown(spent, Spent(c, s, e)))
  {
    hide Accounted, Unissued, Issued, Spent, After, Evidence, Within;
    NothingSpent(c, s, e);
    BaseWithin(c, s, e);
    if e.CallReserve? {
      ReserveAfter(c, s, e);
    } else if Issued(c, s, e).Some? {
      ConfirmAfter(c, s, e);
    }
    StepKeeps(s.confirmations, Base(c, s, e), After(c, s, e).confirmations, issued, spent, Issued(c, s, e),
      Spent(c, s, e));
  }

  /** The evidence of every confirmation that some calls ask for. */
  function UsedEvidence(calls: seq<Call>): set<string>
  {
    set i | 0 <= i < |calls| && calls[i].CallConfirm? :: Evidence(calls[i].id)
  }

  lemma UsedMore(before: seq<Call>, e: Call)
    ensures UsedEvidence(before) <= UsedEvidence(before + [e])
    ensures e.CallConfirm? ==> Evidence(e.id) in UsedEvidence(before + [e])
    ensures FreshEvidence(before + [e]) && e.CallConfirm? ==> Evidence(e.id) !in UsedEvidence(before)
  {
    hide Evidence;
    var calls := before + [e];
    assert calls[|before|] == e && forall i :: 0 <= i < |before| ==> calls[i] == before[i];
    forall i | 0 <= i < |before| && before[i].CallConfirm? && e.CallConfirm?
      ensures Evidence(before[i].id) == Evidence(e.id) <==> before[i].id == e.id
    {
      EvidenceInjective(before[i].id, e.id);
    }
  }

  lemma {:induction false} IssuedByCalls(c: Config, calls: seq<Call>)
    ensures IssuedWithin(Ledger(c, calls).issued, UsedEvidence(calls))
  {
    if calls != [] {
      hide After, Issued, Spent, PaidBy, Run, Evidence, UsedEvidence, IssuedWithin;
      var before, e := calls[..|calls| - 1], calls[|calls| - 1];
      assert before + [e] == calls;
      IssuedByCalls(c, before);
      var s := Run(c, before).console;
      if Issued(c, s, e).Some? {
        ConfirmAfter(c, s, e);
      }
      UsedMore(before, e);
      WithinMore(Ledger(c, before).issued, Issued(c, s, e), UsedEvidence(before), UsedEvidence(calls));
    }
  }

  lemma {:induction false} RunAccounted(c: Config, calls: seq<Call>)
    requires FreshEvidence(calls)
    ensures Accounted(Run(c, calls).console.confirmations, Ledger(c, calls).issued, Ledger(c, calls).spent)
  {
    if calls != [] {
      hide Accounted, After, Issued, Spent, PaidBy, Created, Evidence, Unissued, IssuedWithin, UsedEvidence;
      var before, e := calls[..|calls| - 1], calls[|calls| - 1];
      assert before + [e] == calls;
      RunAccounted(c, before);
      IssuedByCalls(c, before);
      UsedMore(before, e);
      var a := Ledger(c, before);
      if e.CallConfirm? {
        UnusedIsUnissued(a.issued, UsedEvidence(before), Evidence(e.id));
      }
      NextAccounted(c, Run(c, before).console, e, a.issued, a.spent);
    }
  }

  /** What is paid is a reservation of the run, for the input that was confirmed. */
  ghost predicate PaysFor(p: Paid, created: seq<Making>)
  {
    && p.made in created && p.spend.swept == p.made.swept
    && p.spend.confirmed.fingerprint == ReservationFingerprint(p.made.input)
  }

  lemma PaidIsCreated(c: Config, s: Console, e: Call)
    ensures PaidBy(c, s, e).Some? ==>
      && Created(c, s, e) == Some(PaidBy(c, s, e).value.made) && Spent(c, s, e) == Some(PaidBy(c, s, e).value.spend)
      && PaysFor(PaidBy(c, s, e).value, [Created(c, s, e).value])
    ensures PaidBy(c, s, e).None? ==> Spent(c, s, e).None?
  {
    hide ReserveInput, ReserveRefusal, ReservationFingerprint, Scope, Unexpired, UnexpiredConfirmations;
  }

  ghost predicate AllPaid(a: Accounts, created: seq<Making>)
  {
    && |a.spent| == |a.paid|
    && forall k :: 0 <= k < |a.paid| ==> a.spent[k] == a.paid[k].spend && PaysFor(a.paid[k], created)
  }

  lemma {:induction false} RunPaid(c: Config, calls: seq<Call>)
    ensures AllPaid(Ledger(c, calls), Run(c, calls).created)
  {
    if calls != [] {
      hide After, Issued, Spent, PaidBy, Created, ReservationFingerprint, AllPaid;
      var before, e := calls[..|calls| - 1], calls[|calls| - 1];
      RunPaid(c, before);
      var s := Run(c, before).console;
      PaidIsCreated(c, s, e);
      MorePaid(Ledger(c, before), Issued(c, s, e), Spent(c, s, e), PaidBy(c, s, e), Run(c, before).created,
        Created(c, s, e));
    }
  }

  lemma MorePaid(a: Accounts, x: Option<Issue>, w: Option<Spend>, p: Option<Paid>, created: seq<Making>,
    made: Option<Making>)
    requires AllPaid(a, created) && (w.Some? <==> p.Some?)
    requires p.Some? ==> made.Some? && w.value == p.value.spend && PaysFor(p.value, [made.value])
    ensures AllPaid(Accounts(Grown(a.issued, x), Grown(a.spent, w), Grown(a.paid, p)), Grown(created, made))
  {
    hide ReservationFingerprint;
    assert made.Some? ==> Grown(created, made)[|created|] == made.value;
  }

  /**
   Over every run, evidence makes at most one reservation: what was spent on a reservation was issued to the same
   session for the same key and input, had not expired when the call swept, and was spent on no other.
   */
  lemma EvidenceAccounting(c: Config, calls: seq<Call>)
    requires FreshEvidence(calls)
    ensures var a := Ledger(c, calls);
      && AllPaid(a, Run(c, calls).created)
      && (forall k :: 0 <= k < |a.paid| ==>
            && Covered(a.issued, a.paid[k].spend)
            && a.paid[k].spend.evidence !in Run(c, calls).console.confirmations)
      && forall j, k :: 0 <= j < k < |a.paid| ==> a.paid[j].spend.evidence != a.paid[k].spend.evidence
  {
    RunPaid(c, calls);
    RunAccounted(c, calls);
    hide Run, Ledger, Covered, PaysFor;
  }
}
