/** Whole runs of the support desk: every ticket is paid for by a confirmation of its own. */
module SupportRuns {
  import opened Wrappers
  import opened JsonText
  import opened Validation
  import opened Expiring
  import opened Idempotency
  import opened EvidenceAccounts
  import opened SupportLedger
  import Collections

  datatype Call =
    | CallLogin(email: Json, password: Json, t0: int, t1: int, session: string)
    | CallConfirm(session: string, value: Json, t0: int, t1: int, id: string)
    | CallTicket(session: string, value: Json, key: Json, evidence: Option<string>, t: Readings, id: string)
    /** Any call that only sweeps and reads. */
    | CallRead(t0: int)

  function First(e: Call): int
  {
    if e.CallTicket? then e.t.swept else e.t0
  }

  function Last(e: Call): int
  {
    match e
    case CallLogin(_, _, _, t1, _) => t1
    case CallConfirm(_, _, _, t1, _) => t1
    case CallTicket(_, _, _, _, t, _) => t.stored
    case CallRead(t0) => t0
  }

  predicate OrderedReadings(e: Call)
  {
    match e
    case CallLogin(_, _, t0, t1, _) => t0 <= t1
    case CallConfirm(_, _, t0, t1, _) => t0 <= t1
    case CallTicket(_, _, _, _, t, _) => t.swept <= t.created <= t.stored
    case CallRead(_) => true
  }

  function After(c: Config, s: Desk, e: Call): Desk
  {
    match e
    case CallLogin(email, password, t0, t1, session) => Login(c, s, email, password, t0, t1, session).1
    case CallConfirm(session, value, t0, t1, id) => IssueConfirmation(c, s, session, value, t0, t1, id).1
    case CallTicket(session, value, key, evidence, t, id) => CreateTicket(c, s, session, value, key, evidence, t, id).1
    case CallRead(t0) => Swept(s, t0)
  }

  /** A ticket that was made, with the evidence that was spent on it. */
  datatype Payment = Payment(spend: Spend, session: string, key: string, input: TicketInput, ticket: Ticket)

  type Making = Creation<TicketInput, TicketResult>

  function Issued(c: Config, s: Desk, e: Call): Option<Issue>
  {
    if !e.CallConfirm? then None
    else
      match NormalizeTicketRequest(e.value)
      case Err(_) => None
      case Ok((input, key)) =>
        if IssueConfirmation(c, s, e.session, e.value, e.t0, e.t1, e.id).0.Err? then None
        else
          Some(Issue(Evidence(e.id),
            Held(Confirmation(e.session, TicketFingerprint(input), key), e.t1 + c.confirmationTtlMs)))
  }

  /** The ticket a call makes, if it makes one. */
  function Paid(c: Config, s: Desk, e: Call): Option<(Payment, Making)>
  {
    if !e.CallTicket? then None
    else
      var s1 := Swept(s, e.t.swept);
      if e.session !in s1.sessions then None
      else
        match TicketInputChecked(e.value, e.key, e.evidence)
        case Err(_) => None
        case Ok((input, key, evidence)) =>
          var user := s1.sessions[e.session].value;
          if Scope(user, key) in s1.idempotency || TicketRefusal(c, s1, e.session, input, key, evidence).Some? then None
          else
            var ticket := NewTicket(c, input, e.t.created, e.id);
            var spend := Spend(evidence, Confirmation(e.session, TicketFingerprint(input), key), e.t.swept);
            Some((Payment(spend, e.session, key, input, ticket),
                  Creation(user, key, input, ticket.result, e.t.swept, e.t.stored)))
  }

  function SpendOf(c: Config, s: Desk, e: Call): Option<Spend>
  {
    var paid := Paid(c, s, e);
    if paid.Some? then Some(paid.value.0.spend) else None
  }

  datatype History = History(desk: Desk, issued: seq<Issue>, spent: seq<Spend>, paid: seq<Payment>,
    created: seq<Making>)

  function Next(c: Config, h: History, e: Call): History
  {
    var paid := Paid(c, h.desk, e);
    History(After(c, h.desk, e),
      Grown(h.issued, Issued(c, h.desk, e)),
      Grown(h.spent, SpendOf(c, h.desk, e)),
      if paid.Some? then h.paid + [paid.value.0] else h.paid,
      if paid.Some? then h.created + [paid.value.1] else h.created)
  }

  function Run(c: Config, calls: seq<Call>): History
  {
    if calls == [] then History(FRESH, [], [], [], [])
    else Next(c, Run(c, calls[..|calls| - 1]), calls[|calls| - 1])
  }

  /** The clock does not go back, inside a call or between two. */
  ghost predicate Monotone(calls: seq<Call>)
  {
    && (forall i :: 0 <= i < |calls| ==> OrderedReadings(calls[i]))
    && (forall i, j :: 0 <= i < j < |calls| ==> Last(calls[i]) <= First(calls[j]))
  }

  /** Random identifiers never repeat. */
  ghost predicate FreshIds(calls: seq<Call>)
  {
    forall i, j :: 0 <= i < j < |calls| && calls[i].CallConfirm? && calls[j].CallConfirm? ==> calls[i].id != calls[j].id
  }

  // ---- One call ----

  /** What is left of the confirmations once a call has swept, if it does. */
  function Base(c: Config, s: Desk, e: Call): map<string, Held<Confirmation>>
  {
    if e.CallConfirm? || e.CallTicket? then
      UnexpiredConfirmations(s.confirmations, Unexpired(s.sessions, First(e)).Keys, First(e))
    else After(c, s, e).confirmations
  }

  /** A call that makes no ticket and issues no evidence takes nothing but what its sweep takes. */
  lemma ConfirmationsAfter(c: Config, s: Desk, e: Call)
    ensures var m, m' := Base(c, s, e), After(c, s, e).confirmations;
      match (Issued(c, s, e), SpendOf(c, s, e))
      case (Some(x), None) => m' == m[x.evidence := x.held] && e.CallConfirm? && x.evidence == Evidence(e.id)
      case (None, None) => m' == m
      case (None, Some(w)) =>
        && m' == m - {w.evidence} && w.evidence in m && w.swept == First(e)
        && m[w.evidence].value == w.confirmed
      case _ => false
  {
    hide TicketInputChecked, NormalizeTicketRequest, BoundedString, TicketFingerprint, Scope, Evidence, Unexpired,
      UnexpiredConfirmations;
  }

  lemma BaseWithin(c: Config, s: Desk, e: Call)
    ensures Within(Base(c, s, e), s.confirmations)
    ensures e.CallTicket? ==> forall k :: k in Base(c, s, e) ==> Base(c, s, e)[k].expiresAt > First(e)
  {
    hide BoundedString, NormalizeTicketRequest, TicketInputChecked;
  }

  lemma TicketsAfter(c: Config, s: Desk, e: Call)
    ensures match Paid(c, s, e)
      case None => After(c, s, e).tickets == s.tickets && (e.CallTicket? ==> After(c, s, e) == Swept(s, First(e)))
      case Some((p, x)) =>
        && After(c, s, e).tickets == s.tickets + [p.ticket]
        && TicketOf(p, x)
  {
    hide TicketInputChecked, NormalizeTicketRequest, BoundedString, TicketFingerprint, Scope, Evidence, Unexpired,
      UnexpiredConfirmations;
  }

  // ---- Accounting ----

  lemma NextAccounted(c: Config, h: History, e: Call)
    requires Accounted(h.desk.confirmations, h.issued, h.spent)
    requires e.CallConfirm? ==> Unissued(h.issued, Evidence(e.id))
    ensures var h' := Next(c, h, e); Accounted(h'.desk.confirmations, h'.issued, h'.spent)
  {
    hide Issued, Paid, SpendOf, After, Base, Accounted, Unissued, TicketFingerprint, Evidence;
    ConfirmationsAfter(c, h.desk, e);
    BaseWithin(c, h.desk, e);
    SpendIsTicket(c, h.desk, e);
    StepKeeps(h.desk.confirmations, Base(c, h.desk, e), After(c, h.desk, e).confirmations, h.issued, h.spent,
      Issued(c, h.desk, e), SpendOf(c, h.desk, e));
  }

  lemma SpendIsTicket(c: Config, s: Desk, e: Call)
    ensures SpendOf(c, s, e).Some? ==> e.CallTicket?
  {
  }

  /** The evidence of every confirmation that some calls ask for. */
  function UsedEvidence(calls: seq<Call>): set<string>
  {
    set i | 0 <= i < |calls| && calls[i].CallConfirm? :: Evidence(calls[i].id)
  }

  lemma UsedMore(before: seq<Call>, e: Call)
    ensures UsedEvidence(before) <= UsedEvidence(before + [e])
    ensures e.CallConfirm? ==> Evidence(e.id) in UsedEvidence(before + [e])
    ensures FreshIds(before + [e]) && e.CallConfirm? ==> Evidence(e.id) !in UsedEvidence(before)
  {
    hide Evidence;
    var calls := before + [e];
    assert calls[|before|] == e && forall i :: 0 <= i < |before| ==> calls[i] == before[i];
    forall i | 0 <= i < |before| && before[i].CallConfirm? && e.CallConfirm?
      ensures Evidence(before[i].id) == Evidence(e.id) <==> before[i].id == e.id
    {
      EvidenceInjective(before[i].id, e.id);
    }
  }

  lemma {:induction false} IssuedByCalls(c: Config, calls: seq<Call>)
    ensures IssuedWithin(Run(c, calls).issued, UsedEvidence(calls))
  {
    if calls != [] {
      hide After, Issued, Paid, SpendOf, Base, Evidence, UsedEvidence, IssuedWithin;
      var before, e := calls[..|calls| - 1], calls[|calls| - 1];
      assert before + [e] == calls;
      IssuedByCalls(c, before);
      var h := Run(c, before);
      ConfirmationsAfter(c, h.desk, e);
      UsedMore(before, e);
      WithinMore(h.issued, Issued(c, h.desk, e), UsedEvidence(before), UsedEvidence(calls));
    }
  }

  lemma {:induction false} RunAccounted(c: Config, calls: seq<Call>)
    requires FreshIds(calls)
    ensures var h := Run(c, calls); Accounted(h.desk.confirmations, h.issued, h.spent)
  {
    if calls != [] {
      hide Accounted, Next, Evidence, Unissued, IssuedWithin, UsedEvidence;
      var before, e := calls[..|calls| - 1], calls[|calls| - 1];
      assert before + [e] == calls;
      RunAccounted(c, before);
      IssuedByCalls(c, before);
      UsedMore(before, e);
      if e.CallConfirm? {
        UnusedIsUnissued(Run(c, before).issued, UsedEvidence(before), Evidence(e.id));
      }
      NextAccounted(c, Run(c, before), e);
    }
  }

  /** The tickets that exist are, one for one, those that were paid for and first answered. */
  ghost predicate TicketsPaid(tickets: seq<Ticket>, spent: seq<Spend>, paid: seq<Payment>, created: seq<Making>)
  {
    && |tickets| == |spent| == |paid| == |created|
    && forall k :: 0 <= k < |paid| ==>
         tickets[k] == paid[k].ticket && spent[k] == paid[k].spend && TicketOf(paid[k], created[k])
  }

  predicate TicketOf(p: Payment, x: Making)
  {
    && p.input == x.input && p.ticket.result == x.result && p.spend.swept == x.swept
    && p.spend.confirmed == Confirmation(p.session, TicketFingerprint(p.input), p.key)
    && p.ticket.orderId == p.input.orderId && p.ticket.title == p.input.title
    && p.ticket.result.priority == p.input.priority
  }

  lemma MorePaid(
    tickets: seq<Ticket>, spent: seq<Spend>, paid: seq<Payment>, created: seq<Making>, p: Payment, x: Making)
    requires TicketsPaid(tickets, spent, paid, created) && TicketOf(p, x)
    ensures TicketsPaid(tickets + [p.ticket], spent + [p.spend], paid + [p], created + [x])
  {
    hide TicketOf;
  }

  lemma {:induction false} RunTicketsPaid(c: Config, calls: seq<Call>)
    ensures var h := Run(c, calls); TicketsPaid(h.desk.tickets, h.spent, h.paid, h.created)
  {
    if calls != [] {
      var before, e := calls[..|calls| - 1], calls[|calls| - 1];
      RunTicketsPaid(c, before);
      hide After, Paid, Issued, TicketOf, TicketsPaid, Grown;
      var h := Run(c, before);
      TicketsAfter(c, h.desk, e);
      var paid := Paid(c, h.desk, e);
      if paid.Some? {
        MorePaid(h.desk.tickets, h.spent, h.paid, h.created, paid.value.0, paid.value.1);
      }
    }
  }

  /**
   Over every run, each ticket has its own confirmation: issued to the same session for the same key and input, not
   expired when the call swept, and used for no other ticket.
   */
  lemma TicketAccounting(c: Config, calls: seq<Call>)
    requires FreshIds(calls)
    ensures var h := Run(c, calls);
      && TicketsPaid(h.desk.tickets, h.spent, h.paid, h.created)
      && (forall k :: 0 <= k < |h.paid| ==>
            Covered(h.issued, h.paid[k].spend) && h.paid[k].spend.evidence !in h.desk.confirmations)
      && forall j, k :: 0 <= j < k < |h.paid| ==> h.paid[j].spend.evidence != h.paid[k].spend.evidence
  {
    RunTicketsPaid(c, calls);
    RunAccounted(c, calls);
    hide Run, TicketsPaid, Covered;
  }

  // ---- Identifiers ----

  /** Random identifiers of tickets never repeat. */
  ghost predicate FreshTickets(calls: seq<Call>)
  {
    forall i, j :: 0 <= i < j < |calls| && calls[i].CallTicket? && calls[j].CallTicket? ==> calls[i].id != calls[j].id
  }

  /** A ticket has the identifier of the call that asked for it, and the time that call read. */
  predicate MadeIn(c: Config, e: Call, ticket: Ticket)
  {
    e.CallTicket? && ticket.result.ticketId == "TCK-" + e.id && ticket.result.createdAt == c.iso(e.t.created)
  }

  ghost predicate MadeBy(c: Config, calls: seq<Call>, ticket: Ticket)
  {
    exists i :: 0 <= i < |calls| && MadeIn(c, calls[i], ticket)
  }

  lemma PaidIsMade(c: Config, s: Desk, e: Call)
    ensures Paid(c, s, e).Some? ==> MadeIn(c, e, Paid(c, s, e).value.0.ticket)
  {
    hide TicketInputChecked, TicketRefusal, TicketFingerprint, Scope, Unexpired, UnexpiredConfirmations;
  }

  lemma NewIdentifier(c: Config, before: seq<Call>, e: Call, prior: Ticket, ticket: Ticket)
    requires FreshTickets(before + [e]) && MadeBy(c, before, prior) && MadeIn(c, e, ticket)
    ensures prior.result.ticketId != ticket.result.ticketId
  {
    var i :| 0 <= i < |before| && MadeIn(c, before[i], prior);
    assert (before + [e])[i] == before[i] && (before + [e])[|before|] == e;
    assert ("TCK-" + before[i].id)[4..] == before[i].id && ("TCK-" + e.id)[4..] == e.id;
  }

  /** Each ticket has the identifier of a call that asked for it, and no two have the same. */
  ghost predicate OwnIds(c: Config, calls: seq<Call>, tickets: seq<Ticket>)
  {
    && (forall k :: 0 <= k < |tickets| ==> MadeBy(c, calls, tickets[k]))
    && forall j, k :: 0 <= j < k < |tickets| ==> tickets[j].result.ticketId != tickets[k].result.ticketId
  }

  lemma MadeLater(c: Config, before: seq<Call>, e: Call, ticket: Ticket)
    requires MadeBy(c, before, ticket) || MadeIn(c, e, ticket)
    ensures MadeBy(c, before + [e], ticket)
  {
    var calls := before + [e];
    if MadeIn(c, e, ticket) {
      assert calls[|before|] == e;
    } else {
      var i :| 0 <= i < |before| && MadeIn(c, before[i], ticket);
      assert calls[i] == before[i];
    }
  }

  lemma OwnIdsNext(c: Config, before: seq<Call>, e: Call, tickets: seq<Ticket>, more: seq<Ticket>)
    requires FreshTickets(before + [e]) && OwnIds(c, before, tickets)
    requires |more| <= 1 && (more != [] ==> MadeIn(c, e, more[0]))
    ensures OwnIds(c, before + [e], tickets + more)
  {
    hide FreshTickets, MadeBy, MadeIn;
    var all := tickets + more;
    forall k | 0 <= k < |all|
      ensures MadeBy(c, before + [e], all[k])
    {
      MadeLater(c, before, e, all[k]);
    }
    forall j, k | 0 <= j < k < |all|
      ensures all[j].result.ticketId != all[k].result.ticketId
    {
      if k == |tickets| {
        NewIdentifier(c, before, e, all[j], all[k]);
      }
    }
  }

  /** Over every run each ticket has the identifier of a call that asked for it, and no two have the same. */
  lemma {:induction false} TicketsHaveOwnIds(c: Config, calls: seq<Call>)
    requires FreshTickets(calls)
    ensures OwnIds(c, calls, Run(c, calls).desk.tickets)
  {
    if calls != [] {
      hide After, Paid, Issued, MadeIn, FreshTickets, OwnIds, TicketOf, Grown;
      var before, e := calls[..|calls| - 1], calls[|calls| - 1];
      assert calls == before + [e];
      FreshBefore(before, e);
      TicketsHaveOwnIds(c, before);
      var h := Run(c, before);
      TicketsAfter(c, h.desk, e);
      PaidIsMade(c, h.desk, e);
      var paid := Paid(c, h.desk, e);
      OwnIdsNext(c, before, e, h.desk.tickets, if paid.Some? then [paid.value.0.ticket] else []);
    }
  }

  lemma FreshBefore(before: seq<Call>, e: Call)
    requires FreshTickets(before + [e])
    ensures FreshTickets(before)
  {
    assert forall i :: 0 <= i < |before| ==> (before + [e])[i] == before[i];
  }

  // ---- Effects happen once ----

  ghost predicate OnceOk(c: Config, h: History, clock: int)
  {
    && Kept(TicketFingerprint, c.idempotencyTtlMs, h.desk.idempotency, h.created, clock)
    && Backed(TicketFingerprint, c.idempotencyTtlMs, h.desk.idempotency, h.created)
    && Spaced(c.idempotencyTtlMs, h.created)
  }

  function Clock(calls: seq<Call>): int
  {
    if calls == [] then 0 else Last(calls[|calls| - 1])
  }

  function MakingOf(c: Config, s: Desk, e: Call): Option<Making>
  {
    var paid := Paid(c, s, e);
    if paid.Some? then Some(paid.value.1) else None
  }

  lemma MemoryAfterTicket(c: Config, s: Desk, e: Call)
    requires e.CallTicket?
    ensures var m := Unexpired(s.idempotency, First(e));
      match Paid(c, s, e)
      case None => After(c, s, e).idempotency == m
      case Some((_, x)) =>
        && x.swept == First(e) && x.stored == Last(e) && ScopeOf(x) !in m
        && After(c, s, e).idempotency == m[ScopeOf(x) := Stored(TicketFingerprint, c.idempotencyTtlMs, x)]
  {
    hide BoundedString, TicketFingerprint, TicketInputChecked, TicketRefusal, Unexpired, UnexpiredConfirmations, Scope;
  }

  lemma MemoryAfterOther(c: Config, s: Desk, e: Call)
    requires !e.CallTicket?
    ensures Paid(c, s, e).None?
    ensures After(c, s, e).idempotency == Unexpired(s.idempotency, First(e))
         || After(c, s, e).idempotency == s.idempotency
  {
    hide BoundedString, NormalizeTicketRequest, TicketFingerprint, Unexpired, UnexpiredConfirmations, Evidence;
  }

  lemma MemoryAfter(c: Config, s: Desk, e: Call)
    requires OrderedReadings(e)
    ensures MemoryStep(TicketFingerprint, c.idempotencyTtlMs, s.idempotency, After(c, s, e).idempotency,
      MakingOf(c, s, e), First(e), Last(e))
  {
    hide Paid, After, TicketFingerprint, Unexpired, MemoryStep;
    assert First(e) <= Last(e);
    if e.CallTicket? {
      MemoryAfterTicket(c, s, e);
    } else {
      MemoryAfterOther(c, s, e);
    }
    StoreIsStep(TicketFingerprint, c.idempotencyTtlMs, s.idempotency, After(c, s, e).idempotency, MakingOf(c, s, e),
      First(e), Last(e));
  }

  lemma NextKeepsOnce(c: Config, h: History, e: Call, clock: int)
    requires OnceOk(c, h, clock) && clock <= First(e) && OrderedReadings(e)
    ensures OnceOk(c, Next(c, h, e), Last(e))
  {
    MemoryAfter(c, h.desk, e);
    assert First(e) <= Last(e);
    hide Paid, Issued, After, MemoryStep, Kept, Backed, Spaced, First, Last;
    StepKeepsOnce(TicketFingerprint, c.idempotencyTtlMs, h.desk.idempotency, After(c, h.desk, e).idempotency, h.created,
      MakingOf(c, h.desk, e), clock, First(e), Last(e));
    StepKeepsBacked(TicketFingerprint, c.idempotencyTtlMs, h.desk.idempotency, After(c, h.desk, e).idempotency,
      h.created, MakingOf(c, h.desk, e), First(e), Last(e));
  }

  lemma {:induction false} RunKeepsOnce(c: Config, calls: seq<Call>)
    requires Monotone(calls)
    ensures OnceOk(c, Run(c, calls), Clock(calls))
  {
    if calls != [] {
      var before, e := calls[..|calls| - 1], calls[|calls| - 1];
      RunKeepsOnce(c, before);
      hide Next, Remembers;
      if before == [] {
        NextKeepsOnce(c, History(FRESH, [], [], [], []), e, First(e));
      } else {
        NextKeepsOnce(c, Run(c, before), e, Clock(before));
      }
    }
  }

  /** Every session is the agent's, and so is every ticket that was made. */
  ghost predicate OneUser(h: History)
  {
    && (forall k :: k in h.desk.sessions ==> h.desk.sessions[k].value == "user-agent")
    && (forall i :: 0 <= i < |h.created| ==> h.created[i].user == "user-agent")
  }

  lemma SessionsOfAgent(c: Config, s: Desk, e: Call, k: string)
    requires k in After(c, s, e).sessions
    ensures After(c, s, e).sessions[k].value == "user-agent"
         || (k in s.sessions && s.sessions[k] == After(c, s, e).sessions[k])
  {
    hide BoundedString, NormalizeTicketRequest, TicketFingerprint, TicketInputChecked, TicketRefusal,
      UnexpiredConfirmations, Scope;
  }

  lemma PaidBySession(c: Config, s: Desk, e: Call)
    ensures Paid(c, s, e).Some? ==>
      e.CallTicket? && e.session in s.sessions && Paid(c, s, e).value.1.user == s.sessions[e.session].value
  {
    hide TicketInputChecked, TicketRefusal, TicketFingerprint, Scope, UnexpiredConfirmations;
  }

  lemma NextHasOneUser(c: Config, h: History, e: Call)
    requires OneUser(h)
    ensures OneUser(Next(c, h, e))
  {
    hide After, Paid, Issued;
    PaidBySession(c, h.desk, e);
    forall k | k in After(c, h.desk, e).sessions
      ensures After(c, h.desk, e).sessions[k].value == "user-agent"
    {
      SessionsOfAgent(c, h.desk, e, k);
    }
  }

  lemma {:induction false} RunHasOneUser(c: Config, calls: seq<Call>)
    ensures OneUser(Run(c, calls))
  {
    if calls != [] {
      hide Next, OneUser;
      RunHasOneUser(c, calls[..|calls| - 1]);
      NextHasOneUser(c, Run(c, calls[..|calls| - 1]), calls[|calls| - 1]);
    }
  }

  /** Two tickets made under one idempotency key are at least the key's lifetime apart. */
  lemma OncePerWindow(c: Config, calls: seq<Call>, i: nat, j: nat)
    requires Monotone(calls) && i < j < |Run(c, calls).created|
    requires Run(c, calls).created[i].key == Run(c, calls).created[j].key
    ensures Run(c, calls).created[i].stored + c.idempotencyTtlMs <= Run(c, calls).created[j].swept
  {
    RunKeepsOnce(c, calls);
    RunHasOneUser(c, calls);
    hide Run, Kept, Backed;
    assert UnderOneKey(Run(c, calls).created[i], Run(c, calls).created[j]);
  }

  lemma RequestOrError(value: Json)
    ensures NormalizeTicketInput(value).Ok? || NormalizeTicketInput(value) == Err(ValidationError)
  {
    hide BoundedString;
    if ExactKeys(value, {"orderId", "title", "priority"}) {
      BoundedExactly(value.fields["orderId"], "", 1, 64);
      BoundedExactly(value.fields["title"], "", 3, 120);
    }
  }

  /** The checks of a ticket's input, in their order, each with its code. */
  lemma TicketChecksExactly(value: Json, key: Json, evidence: Option<string>)
    ensures TicketInputChecked(value, key, evidence) ==
      match NormalizeTicketInput(value)
      case Err(_) => Err(ValidationError)
      case Ok(input) =>
        if input.orderId != "ORD-4812" then Err(NotFound)
        else if evidence == None || evidence == Some("") then Err(ConfirmationRequired)
        else if !key.Str? || !ProperKey(key.s) then Err(IdempotencyRequired)
        else Ok((input, key.s, evidence.value))
  {
    RequestOrError(value);
    hide NormalizeTicketInput, ProperKey, NormalizeIdempotencyKey;
    if key.Str? {
      KeyExactly(key, IdempotencyRequired, key.s);
    }
    match NormalizeIdempotencyKey(key, IdempotencyRequired)
    case Ok(k) => KeyExactly(key, IdempotencyRequired, k);
    case Err(_) => KeyExactly(key, IdempotencyRequired, "");
  }

  /** Inside the lifetime, the same input gets the stored ticket and another input a conflict; neither has an effect. */
  lemma RepeatInWindow(c: Config, calls: seq<Call>, i: nat, session: string, value: Json, key: Json,
    evidence: Option<string>, t: Readings, id: string)
    requires Monotone(calls) && i < |Run(c, calls).created| && Clock(calls) <= t.swept
    requires t.swept < Run(c, calls).created[i].stored + c.idempotencyTtlMs
    requires session in Swept(Run(c, calls).desk, t.swept).sessions
    requires TicketInputChecked(value, key, evidence).Ok? && key == Str(Run(c, calls).created[i].key)
    ensures var x := Run(c, calls).created[i];
      var same := x.input == TicketInputChecked(value, key, evidence).value.0;
      CreateTicket(c, Run(c, calls).desk, session, value, key, evidence, t, id)
        == (if same then Ok(x.result) else Err(IdempotencyConflict), Swept(Run(c, calls).desk, t.swept))
  {
    hide TicketInputChecked, Run, TicketRefusal, TicketEffect, TicketFingerprint, Scope, UnexpiredConfirmations, Spaced,
      Backed, Monotone;
    RunKeepsOnce(c, calls);
    RunHasOneUser(c, calls);
    var s, x := Run(c, calls).desk, Run(c, calls).created[i];
    TicketChecksExactly(value, key, evidence);
    TicketFingerprintInjective(x.input, TicketInputChecked(value, key, evidence).value.0);
    assert Remembers(TicketFingerprint, c.idempotencyTtlMs, s.idempotency, x);
  }

  /** A refused ticket changes nothing but what the sweep at its start removes. */
  lemma TicketFailureAtomic(c: Config, s: Desk, session: string, value: Json, key: Json, evidence: Option<string>,
    t: Readings, id: string)
    ensures CreateTicket(c, s, session, value, key, evidence, t, id).0.Err? ==>
      CreateTicket(c, s, session, value, key, evidence, t, id).1 == Swept(s, t.swept)
  {
    hide TicketInputChecked, Swept, TicketEffect, TicketRefusal;
  }

  // ---- Listing ----

  lemma {:induction false} OfOneOrder(tickets: seq<Ticket>, orderId: string)
    requires OfKnownOrder(tickets)
    ensures OfOrder(tickets, orderId) == if orderId == ORDER_ID then tickets else []
  {
    if tickets != [] {
      OfOneOrder(tickets[..|tickets| - 1], orderId);
      assert tickets == tickets[..|tickets| - 1] + [tickets[|tickets| - 1]];
    }
  }

  lemma PaidForKnownOrder(c: Config, s: Desk, e: Call)
    ensures Paid(c, s, e).Some? ==> Paid(c, s, e).value.0.ticket.orderId == ORDER_ID
  {
    hide NormalizeTicketInput, TicketRefusal, Unexpired, UnexpiredConfirmations, TicketFingerprint;
  }

  predicate OfKnownOrder(tickets: seq<Ticket>)
  {
    forall k :: 0 <= k < |tickets| ==> tickets[k].orderId == ORDER_ID
  }

  lemma {:induction false} TicketsOfKnownOrder(c: Config, calls: seq<Call>)
    ensures OfKnownOrder(Run(c, calls).desk.tickets)
  {
    if calls != [] {
      var before, e := calls[..|calls| - 1], calls[|calls| - 1];
      TicketsOfKnownOrder(c, before);
      hide After, Paid, Issued, Grown, TicketOf;
      TicketsAfter(c, Run(c, before).desk, e);
      PaidForKnownOrder(c, Run(c, before).desk, e);
    }
  }

  /** Over every run, the one order lists the first hundred tickets made, in their order; any other lists none. */
  lemma ListsEveryTicket(c: Config, calls: seq<Call>, session: string, orderId: string, t0: int)
    requires ListTickets(Run(c, calls).desk, session, Str(orderId), t0).0.Ok?
    ensures ListTickets(Run(c, calls).desk, session, Str(orderId), t0).0.value
         == if Trim(orderId) != "ORD-4812" then []
            else
              var tickets := Run(c, calls).desk.tickets;
              if |tickets| <= 100 then tickets else tickets[..100]
  {
    hide Run, OfOrder, Trim, Unexpired, UnexpiredConfirmations;
    TicketsOfKnownOrder(c, calls);
    OfOneOrder(Run(c, calls).desk.tickets, Trim(orderId));
  }

  // ---- Bounds ----

  predicate Positive(c: Config)
  {
    c.maxSessions > 0 && c.maxConfirmations > 0 && c.maxIdempotency > 0 && c.maxTickets > 0
  }

  predicate Bounded(c: Config, s: Desk)
  {
    && |s.sessions| <= c.maxSessions && |s.confirmations| <= c.maxConfirmations
    && |s.idempotency| <= c.maxIdempotency && |s.tickets| <= c.maxTickets
  }

  lemma SweptBounded(c: Config, s: Desk, now: int)
    requires Bounded(c, s)
    ensures Bounded(c, Swept(s, now))
  {
    var sessions := Unexpired(s.sessions, now);
    UnexpiredSize(s.sessions, now);
    UnexpiredSize(s.idempotency, now);
    UnexpiredConfirmationsSize(s.confirmations, sessions.Keys, now);
    hide Unexpired, UnexpiredConfirmations;
  }

  lemma AfterBounded(c: Config, s: Desk, e: Call)
    requires Bounded(c, s)
    ensures Bounded(c, After(c, s, e))
  {
    hide Swept, BoundedString, NormalizeTicketRequest, TicketInputChecked, TicketFingerprint;
    SweptBounded(c, s, First(e));
    match e
    case CallTicket(session, value, key, evidence, t, id) =>
      var s1 := Swept(s, t.swept);
      TicketBounded(c, s1, e);
    case _ =>
  }

  lemma TicketBounded(c: Config, s1: Desk, e: Call)
    requires e.CallTicket? && Bounded(c, s1)
    ensures forall scope, input, key, evidence ::
      Bounded(c, CreateChecked(c, s1, e.session, scope, input, key, evidence, e.t, e.id).1)
  {
    hide TicketFingerprint;
    forall scope, input, key, evidence
      ensures Bounded(c, CreateChecked(c, s1, e.session, scope, input, key, evidence, e.t, e.id).1)
    {
      Collections.SubsetSize((s1.confirmations - {evidence}).Keys, s1.confirmations.Keys);
    }
  }

  /** Over every run no map and no list outgrows its capacity. */
  lemma {:induction false} RunBounded(c: Config, calls: seq<Call>)
    requires Positive(c)
    ensures Bounded(c, Run(c, calls).desk)
  {
    if calls != [] {
      hide After, Paid, Issued, Bounded;
      RunBounded(c, calls[..|calls| - 1]);
      AfterBounded(c, Run(c, calls[..|calls| - 1]).desk, calls[|calls| - 1]);
    } else {
      hide Next;
    }
  }

  // ---- A confirmation is honoured ----

  /**
   A ticket that is asked for as it was confirmed, by the session that confirmed it, under a key with no remembered
   result, is made exactly when there is room for it, as long as the sweep still finds session and confirmation.
   */
  lemma ConfirmedTicketIsMade(c: Config, s: Desk, session: string, value: Json, t0: int, t1: int, id: string,
    t: Readings, ticketId: string)
    requires IssueConfirmation(c, s, session, value, t0, t1, id).0.Ok?
    requires var s1 := IssueConfirmation(c, s, session, value, t0, t1, id).1;
      && session in s1.sessions && t.swept < s1.sessions[session].expiresAt
      && t.swept < t1 + c.confirmationTtlMs
      && Scope(s1.sessions[session].value, NormalizeTicketRequest(value).value.1) !in Swept(s1, t.swept).idempotency
    ensures var s1 := IssueConfirmation(c, s, session, value, t0, t1, id).1;
      CreateTicket(
        c, s1, session, value.fields["input"], value.fields["idempotencyKey"], Some(Evidence(id)), t, ticketId).0.Ok?
      <==> |s1.tickets| < c.maxTickets && |Swept(s1, t.swept).idempotency| < c.maxIdempotency
  {
    hide NormalizeTicketInput, NormalizeIdempotencyKey, TicketFingerprint, Scope;
    assert Evidence(id)[..4] == "cnf_";
    assert Evidence(id) != "";
  }

  /** A request to confirm a ticket names the tool and holds an input about the one order, a key, and nothing else. */
  lemma TicketRequestExactly(v: Json, r: TicketInput, key: string)
    ensures NormalizeTicketRequest(v) == Ok((r, key)) <==>
      && v.Obj? && v.fields.Keys == {"toolName", "input", "idempotencyKey"}
      && v.fields["toolName"] == Str("create_support_ticket")
      && NormalizeTicketInput(v.fields["input"]) == Ok(r) && r.orderId == "ORD-4812"
      && v.fields["idempotencyKey"] == Str(key) && ProperKey(key)
  {
    hide NormalizeTicketInput, NormalizeIdempotencyKey, ProperKey;
    if ExactKeys(v, {"toolName", "input", "idempotencyKey"}) {
      KeyExactly(v.fields["idempotencyKey"], IdempotencyRequired, key);
    }
  }

  lemma NothingAtFirst(c: Config)
    ensures Run(c, []).created == [] && Run(c, []).desk.idempotency == map[]
  {
  }

  lemma {:induction false} FreeAfterRun(c: Config, calls: seq<Call>, e: Call, key: string, now: int)
    requires Monotone(calls + [e]) && First(e) <= now
    ensures Scope("user-agent", key) !in Unexpired(Run(c, calls).desk.idempotency, now)
       <==> Free(c.idempotencyTtlMs, Run(c, calls).created, "user-agent", key, now)
    ensures OneUser(Run(c, calls))
  {
    hide Run, First, OrderedReadings, Scope, Kept, Backed, Free;
    var all := calls + [e];
    assert all[|calls|] == e && forall i :: 0 <= i < |calls| ==> all[i] == calls[i];
    RunKeepsOnce(c, calls);
    RunHasOneUser(c, calls);
    NothingAtFirst(c);
    FreeExactly(TicketFingerprint, c.idempotencyTtlMs, Run(c, calls).desk.idempotency, Run(c, calls).created,
      if calls == [] then now else Clock(calls), "user-agent", key, now);
  }

  /** What a confirmation that is issued leaves for a later sweep. */
  lemma ConfirmSweeps(c: Config, s: Desk, e: Call, now: int)
    requires e.CallConfirm? && e.t0 <= now && e.session in s.sessions && s.sessions[e.session].expiresAt > now
    requires IssueConfirmation(c, s, e.session, e.value, e.t0, e.t1, e.id).0.Ok?
    ensures var s1 := After(c, s, e);
      && s1.tickets == s.tickets && Unexpired(s1.idempotency, now) == Unexpired(s.idempotency, now)
      && e.session in s1.sessions && s1.sessions[e.session] == s.sessions[e.session]
  {
    hide NormalizeTicketRequest, TicketFingerprint, UnexpiredConfirmations;
  }

  /**
   Over every run, a ticket that is asked for as it was confirmed, by the session that confirmed it, under a key that is
   free, is made exactly when there is room for it, whatever was made under other keys.
   */
  lemma {:induction false} ConfirmedUnderFreeKey(c: Config, calls: seq<Call>, e: Call, t: Readings, ticketId: string)
    requires e.CallConfirm? && Monotone(calls + [e])
    requires IssueConfirmation(c, Run(c, calls).desk, e.session, e.value, e.t0, e.t1, e.id).0.Ok?
    requires var s := Run(c, calls).desk;
      e.session in s.sessions && e.t1 <= t.swept < s.sessions[e.session].expiresAt
    requires t.swept < e.t1 + c.confirmationTtlMs
    requires Free(c.idempotencyTtlMs, Run(c, calls).created, "user-agent", NormalizeTicketRequest(e.value).value.1,
               t.swept)
    ensures var s := Run(c, calls).desk;
      CreateTicket(c, After(c, s, e), e.session, e.value.fields["input"], e.value.fields["idempotencyKey"],
        Some(Evidence(e.id)), t, ticketId).0.Ok?
      <==> |s.tickets| < c.maxTickets && |Swept(s, t.swept).idempotency| < c.maxIdempotency
  {
    hide Run, After, CreateTicket, IssueConfirmation, Swept, NormalizeTicketRequest, OrderedReadings, Scope, Paid,
      Unexpired;
    var s := Run(c, calls).desk;
    IssuedMeans(c, s, e, calls);
    assert First(e) <= t.swept by { LastReading(e); }
    FreeAfterRun(c, calls, e, NormalizeTicketRequest(e.value).value.1, t.swept);
    assert s.sessions[e.session].value == "user-agent";
    ConfirmedNext(c, s, e, t, ticketId);
  }

  lemma LastReading(e: Call)
    requires OrderedReadings(e)
    ensures First(e) <= Last(e)
  {
  }

  lemma IssuedMeans(c: Config, s: Desk, e: Call, calls: seq<Call>)
    requires e.CallConfirm? && Monotone(calls + [e])
    requires IssueConfirmation(c, s, e.session, e.value, e.t0, e.t1, e.id).0.Ok?
    ensures NormalizeTicketRequest(e.value).Ok? && OrderedReadings(e)
  {
    hide NormalizeTicketRequest, TicketFingerprint, Unexpired, UnexpiredConfirmations;
    assert (calls + [e])[|calls|] == e;
  }

  /** The same, of one state in which nothing unexpired is remembered under the key. */
  lemma ConfirmedNext(c: Config, s: Desk, e: Call, t: Readings, ticketId: string)
    requires e.CallConfirm? && OrderedReadings(e)
    requires IssueConfirmation(c, s, e.session, e.value, e.t0, e.t1, e.id).0.Ok?
    requires e.session in s.sessions && e.t1 <= t.swept < s.sessions[e.session].expiresAt
    requires t.swept < e.t1 + c.confirmationTtlMs
    requires Scope(s.sessions[e.session].value, NormalizeTicketRequest(e.value).value.1)
          !in Unexpired(s.idempotency, t.swept)
    ensures CreateTicket(c, After(c, s, e), e.session, e.value.fields["input"], e.value.fields["idempotencyKey"],
        Some(Evidence(e.id)), t, ticketId).0.Ok?
      <==> |s.tickets| < c.maxTickets && |Swept(s, t.swept).idempotency| < c.maxIdempotency
  {
    hide CreateTicket, NormalizeTicketRequest, Scope, UnexpiredConfirmations, Unexpired, Paid, TicketFingerprint;
    ConfirmSweeps(c, s, e, t.swept);
    ConfirmedTicketIsMade(c, s, e.session, e.value, e.t0, e.t1, e.id, t, ticketId);
  }

  /** The answer to a ticket under a free key, said of its state. */
  function FreshAnswer(c: Config, s: Desk, session: string, input: TicketInput, key: string, evidence: string,
    t: Readings, id: string): Result<TicketResult, Code>
  {
    if !(evidence in s.confirmations && s.confirmations[evidence].expiresAt > t.swept
         && s.confirmations[evidence].value.session == session
         && s.confirmations[evidence].value.idempotencyKey == key
         && s.confirmations[evidence].value.fingerprint == TicketFingerprint(input)) then
      Err(ConfirmationInvalid)
    else if |s.tickets| >= c.maxTickets || |Unexpired(s.idempotency, t.swept)| >= c.maxIdempotency then
      Err(CapacityExceeded)
    else Ok(TicketResult("TCK-" + id, input.priority, c.iso(t.created)))
  }

  lemma FreshTicket(c: Config, s: Desk, session: string, value: Json, key: Json, evidence: Option<string>, t: Readings,
    id: string)
    requires session in s.sessions && t.swept < s.sessions[session].expiresAt
    requires TicketInputChecked(value, key, evidence).Ok?
    requires Scope(s.sessions[session].value, TicketInputChecked(value, key, evidence).value.1)
          !in Unexpired(s.idempotency, t.swept)
    ensures var (input, k, given) := TicketInputChecked(value, key, evidence).value;
      CreateTicket(c, s, session, value, key, evidence, t, id).0 == FreshAnswer(c, s, session, input, k, given, t, id)
  {
    hide TicketInputChecked, TicketFingerprint, Scope, TicketEffect;
  }

  /**
   Over every run, the answer to any ticket under a free key, whatever was made under other keys: the evidence has to be
   what the session was issued for this input and key, and then there has to be room.
   */
  lemma {:induction false} TicketUnderFreeKey(c: Config, calls: seq<Call>, e: Call)
    requires e.CallTicket? && Monotone(calls + [e])
    requires var s := Run(c, calls).desk;
      && e.session in s.sessions && e.t.swept < s.sessions[e.session].expiresAt
      && TicketInputChecked(e.value, e.key, e.evidence).Ok?
      && Free(c.idempotencyTtlMs, Run(c, calls).created, "user-agent",
           TicketInputChecked(e.value, e.key, e.evidence).value.1, e.t.swept)
    ensures var s := Run(c, calls).desk;
      var (input, k, given) := TicketInputChecked(e.value, e.key, e.evidence).value;
      CreateTicket(c, s, e.session, e.value, e.key, e.evidence, e.t, e.id).0
      == FreshAnswer(c, s, e.session, input, k, given, e.t, e.id)
  {
    hide Run, CreateTicket, TicketInputChecked, Scope, Unexpired, FreshAnswer;
    var s := Run(c, calls).desk;
    assert (calls + [e])[|calls|] == e;
    FreeAfterRun(c, calls, e, TicketInputChecked(e.value, e.key, e.evidence).value.1, e.t.swept);
    FreshTicket(c, s, e.session, e.value, e.key, e.evidence, e.t, e.id);
  }
}
