/** What the parts console lists: over every run, which parts, in which order, with what is left of each. */
module PartsListing {
  import opened Wrappers
  import opened Unicode
  import opened JsonText
  import opened Validation
  import opened Expiring
  import opened PartsLedger
  import opened PartsSafety
  import opened PartsRuns

  ghost predicate Occurs(part: string, s: string)
  {
    exists before: string, after: string :: s == before + part + after
  }

  lemma ContainsExactly(s: string, part: string)
    ensures Contains(s, part) <==> Occurs(part, s)
  {
    if Contains(s, part) {
      var i :| 0 <= i <= |s| && part <= s[i..];
      assert s == s[..i] + part + s[i..][|part|..];
    }
    if Occurs(part, s) {
      var before: string, after: string :| s == before + part + after;
      assert s[|before|..] == part + after;
      assert part <= s[|before|..];
    }
  }

  /** What the query looks for: everything, or a text in lower case that the SKU or the name has to hold. */
  ghost predicate Matches(c: Config, query: Option<string>, p: Part)
  {
    query.None? || query.value == "" || exists q ::
      && Bounds(Str(query.value), q, 1, 120)
      && (c.lower(q) == "" || Occurs(c.lower(q), c.lower(p.sku)) || Occurs(c.lower(q), c.lower(p.name)))
  }

  /** A part as a run leaves it: what is on hand, less what is in a reservation that is not released. */
  function Left(rs: seq<Reservation>, p: Part): Summary
  {
    Summary(p.sku, p.name, p.onHand - Outstanding(rs, p.sku))
  }

  ghost function Listed(c: Config, query: Option<string>, rs: seq<Reservation>, p: Part): seq<Summary>
  {
    if Matches(c, query, p) then [Left(rs, p)] else []
  }

  ghost predicate Searchable(query: Option<string>)
  {
    query.None? || query.value == "" || exists q :: Bounds(Str(query.value), q, 1, 120)
  }

  /** The text that is looked for, once the query is accepted. */
  lemma Normalized(c: Config, query: Option<string>) returns (q: string)
    requires Searchable(query)
    ensures query.None? || query.value == "" ==> q == ""
    ensures query.Some? && query.value != "" ==>
      && BoundedString(Str(query.value), 1, 120).Ok?
      && q == c.lower(BoundedString(Str(query.value), 1, 120).value)
    ensures forall p :: Wanted(c, p, q) <==> Matches(c, query, p)
  {
    hide Occurs, Bounds, BoundedString, Contains;
    q := "";
    if query.Some? && query.value != "" {
      var b :| Bounds(Str(query.value), b, 1, 120);
      BoundedExactly(Str(query.value), b, 1, 120);
      q := c.lower(b);
      forall o | Bounds(Str(query.value), o, 1, 120)
        ensures o == b
      {
        BoundedExactly(Str(query.value), o, 1, 120);
      }
    }
    forall p
      ensures Wanted(c, p, q) <==> Matches(c, query, p)
    {
      ContainsExactly(c.lower(p.sku), q);
      ContainsExactly(c.lower(p.name), q);
    }
  }

  lemma SummariesOfTwo(c: Config, parts: seq<Part>, q: string)
    requires |parts| == 2
    ensures Summaries(c, parts, q) == SummaryIf(c, parts[0], q) + SummaryIf(c, parts[1], q)
  {
    hide Wanted;
    assert parts[1..][0] == parts[1] && parts[1..][1..] == [] && Summaries(c, [], q) == [];
  }

  function SummaryIf(c: Config, p: Part, q: string): seq<Summary>
  {
    if Wanted(c, p, q) then [Summary(p.sku, p.name, p.onHand - p.reserved)] else []
  }

  /**
   Over every run the list holds, in the order of the seed, each part that the query asks for, with what is on hand and
   not reserved; a query that is no text of 1 to 120 characters is refused, and so is who has no session.
   */
  lemma {:induction false} ListsExactly(c: Config, calls: seq<Call>, session: string, query: Option<string>, t0: int)
    requires FreshIds(calls)
    ensures var s := Run(c, calls).console;
      ListParts(c, s, session, query, t0).0 ==
        if session !in s.sessions || s.sessions[session].expiresAt <= t0 then Err(AuthRequired)
        else if !Searchable(query) then Err(ValidationError)
        else Ok(Listed(c, query, s.reservations, SEED_PARTS[0]) + Listed(c, query, s.reservations, SEED_PARTS[1]))
  {
    hide Run, FreshIds, IssuedBy, Summaries, Matches, Searchable;
    RunConservesStock(c, calls);
    var s := Run(c, calls).console;
    if session in s.sessions && s.sessions[session].expiresAt > t0 {
      if Searchable(query) {
        var q := Normalized(c, query);
        ListedWith(c, s, session, query, t0, q);
      } else {
        NotSearchable(c, s, session, query, t0);
      }
    }
  }

  lemma NotSearchable(c: Config, s: Console, session: string, query: Option<string>, t0: int)
    requires session in s.sessions && s.sessions[session].expiresAt > t0 && !Searchable(query)
    ensures ListParts(c, s, session, query, t0).0 == Err(ValidationError)
  {
    hide BoundedString, Bounds, Wanted;
    match BoundedString(Str(query.value), 1, 120)
    case Ok(q) => BoundedExactly(Str(query.value), q, 1, 120);
    case Err(_) => BoundedExactly(Str(query.value), "", 1, 120);
  }

  lemma ListedWith(c: Config, s: Console, session: string, query: Option<string>, t0: int, q: string)
    requires session in s.sessions && s.sessions[session].expiresAt > t0 && Conserved(s)
    requires query.None? || query.value == "" ==> q == ""
    requires query.Some? && query.value != "" ==>
      && BoundedString(Str(query.value), 1, 120).Ok?
      && q == c.lower(BoundedString(Str(query.value), 1, 120).value)
    requires forall p :: Wanted(c, p, q) <==> Matches(c, query, p)
    ensures ListParts(c, s, session, query, t0).0
         == Ok(Listed(c, query, s.reservations, SEED_PARTS[0]) + Listed(c, query, s.reservations, SEED_PARTS[1]))
  {
    hide BoundedString, Summaries, Matches, Outstanding, UnexpiredConfirmations;
    SummariesOfTwo(c, s.parts, q);
    PartListed(c, query, q, s.parts[0], SEED_PARTS[0], s.reservations);
    PartListed(c, query, q, s.parts[1], SEED_PARTS[1], s.reservations);
    var all := Listed(c, query, s.reservations, SEED_PARTS[0]) + Listed(c, query, s.reservations, SEED_PARTS[1]);
    assert Summaries(c, s.parts, q) == all && |all| <= 2;
  }

  lemma PartListed(c: Config, query: Option<string>, q: string, p: Part, seed: Part, rs: seq<Reservation>)
    requires PartConserved(p, seed, rs) && forall p :: Wanted(c, p, q) <==> Matches(c, query, p)
    ensures SummaryIf(c, p, q) == Listed(c, query, rs, seed)
  {
    hide Matches, Outstanding, Contains;
    assert p.(reserved := 0).sku == p.sku && p.(reserved := 0).name == p.name && p.(reserved := 0).onHand == p.onHand;
    assert Wanted(c, p, q) == Wanted(c, seed, q);
  }
}
