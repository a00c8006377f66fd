/** The parts console over every sequence of calls: stock is conserved, effects happen once, failures leave nothing. */
module PartsSafety {
  import opened Wrappers
  import opened Unicode
  import opened JsonText
  import opened Validation
  import opened Expiring
  import opened PartsLedger

  // ---- Conservation of stock ----

  function Weight(r: Reservation, sku: string): int
  {
    if r.status == Reserved && r.sku == sku then r.quantity else 0
  }

  /** The quantities of a part that are reserved and not released. */
  function Outstanding(rs: seq<Reservation>, sku: string): int
  {
    if rs == [] then 0 else Outstanding(rs[..|rs| - 1], sku) + Weight(rs[|rs| - 1], sku)
  }

  ghost predicate DistinctIds(rs: seq<Reservation>)
  {
    forall i, j :: 0 <= i < j < |rs| ==> rs[i].reservationId != rs[j].reservationId
  }

  predicate Stocked(sku: string)
  {
    sku == SEED_PARTS[0].sku || sku == SEED_PARTS[1].sku
  }

  ghost predicate PartConserved(p: Part, seed: Part, rs: seq<Reservation>)
  {
    && p.(reserved := 0) == seed
    && p.reserved == Outstanding(rs, p.sku)
    && 0 <= p.reserved <= p.onHand
  }

  /** Every part's reserved stock is the sum of its outstanding reservations, and is there. */
  ghost predicate StockConserved(parts: seq<Part>, rs: seq<Reservation>)
  {
    && |parts| == 2
    && PartConserved(parts[0], SEED_PARTS[0], rs)
    && PartConserved(parts[1], SEED_PARTS[1], rs)
    && DistinctIds(rs)
    && (forall i :: 0 <= i < |rs| ==> 1 <= rs[i].quantity && Stocked(rs[i].sku))
  }

  ghost predicate Conserved(s: Console)
  {
    StockConserved(s.parts, s.reservations)
  }

  lemma OutstandingAppend(rs: seq<Reservation>, r: Reservation, sku: string)
    ensures Outstanding(rs + [r], sku) == Outstanding(rs, sku) + Weight(r, sku)
  {
    assert (rs + [r])[..|rs|] == rs;
  }

  lemma {:induction false} OutstandingUpdate(rs: seq<Reservation>, i: nat, r: Reservation, sku: string)
    requires i < |rs|
    ensures Outstanding(rs[i := r], sku) == Outstanding(rs, sku) - Weight(rs[i], sku) + Weight(r, sku)
  {
    var n := |rs| - 1;
    if i == n {
      assert rs[i := r][..n] == rs[..n];
    } else {
      assert rs[i := r][..n] == rs[..n][i := r];
      OutstandingUpdate(rs[..n], i, r, sku);
    }
  }

  lemma {:induction false} OutstandingBounds(rs: seq<Reservation>, i: nat, sku: string)
    requires forall j :: 0 <= j < |rs| ==> 1 <= rs[j].quantity
    ensures 0 <= Outstanding(rs, sku)
    ensures i < |rs| ==> Weight(rs[i], sku) <= Outstanding(rs, sku)
  {
    if rs != [] {
      OutstandingBounds(rs[..|rs| - 1], i, sku);
    }
  }

  lemma {:induction false} NothingOutstanding(rs: seq<Reservation>, sku: string)
    requires forall j :: 0 <= j < |rs| ==> rs[j].status == Released
    ensures Outstanding(rs, sku) == 0
  {
    if rs != [] {
      NothingOutstanding(rs[..|rs| - 1], sku);
    }
  }

  /** Setting aside stock for a reservation at place `i`, or at the end. */
  lemma TakeConserves(parts: seq<Part>, rs: seq<Reservation>, part: nat, r: Reservation, rs': seq<Reservation>)
    requires StockConserved(parts, rs) && part < 2 && r.status == Reserved && parts[part].sku == r.sku
    requires 1 <= r.quantity <= parts[part].onHand - parts[part].reserved
    requires DistinctIds(rs')
    requires forall i :: 0 <= i < |rs'| ==> rs'[i] == r || rs'[i] in rs
    requires forall sku :: Outstanding(rs', sku) == Outstanding(rs, sku) + Weight(r, sku)
    ensures StockConserved(parts[part := parts[part].(reserved := parts[part].reserved + r.quantity)], rs')
  {
    hide Outstanding, DistinctIds;
  }

  lemma PutFresh(rs: seq<Reservation>, r: Reservation)
    requires DistinctIds(rs) && forall i :: 0 <= i < |rs| ==> rs[i].reservationId != r.reservationId
    ensures PutReservation(rs, r) == rs + [r] && DistinctIds(rs + [r])
    ensures forall sku :: Outstanding(rs + [r], sku) == Outstanding(rs, sku) + Weight(r, sku)
  {
    forall sku
      ensures Outstanding(rs + [r], sku) == Outstanding(rs, sku) + Weight(r, sku)
    {
      OutstandingAppend(rs, r, sku);
    }
  }

  lemma PutAgain(rs: seq<Reservation>, r: Reservation, i: nat)
    requires DistinctIds(rs) && i < |rs| && rs[i].reservationId == r.reservationId
    ensures PutReservation(rs, r) == rs[i := r] && DistinctIds(rs[i := r])
    ensures forall sku :: Outstanding(rs[i := r], sku) == Outstanding(rs, sku) - Weight(rs[i], sku) + Weight(r, sku)
  {
    assert FindReservation(rs, r.reservationId) == Some(i);
    forall sku
      ensures Outstanding(rs[i := r], sku) == Outstanding(rs, sku) - Weight(rs[i], sku) + Weight(r, sku)
    {
      OutstandingUpdate(rs, i, r, sku);
    }
  }

  /** A replaced outstanding reservation leaves its stock counted and itself not. */
  lemma ReplacedBreaks(parts: seq<Part>, rs: seq<Reservation>, part: nat, r: Reservation, i: nat)
    requires StockConserved(parts, rs) && part < 2 && r.status == Reserved && parts[part].sku == r.sku
    requires i < |rs| && rs[i].status == Reserved
    requires Outstanding(rs[i := r], rs[i].sku)
          == Outstanding(rs, rs[i].sku) - Weight(rs[i], rs[i].sku) + Weight(r, rs[i].sku)
    ensures !StockConserved(parts[part := parts[part].(reserved := parts[part].reserved + r.quantity)], rs[i := r])
  {
    hide Outstanding, DistinctIds;
    assert Stocked(rs[i].sku);
  }

  /**
   The effect of a reservation conserves stock exactly when its identifier replaces no outstanding reservation: a
   repeated identifier would drop one from the map and keep its stock.
   */
  lemma EffectConservesExactly(c: Config, s: Console, scope: string, input: ReservationInput, part: nat,
    evidence: Option<string>, t: Readings, id: string)
    requires Conserved(s) && part < 2 && s.parts[part].sku == input.sku
    requires 1 <= input.quantity <= s.parts[part].onHand - s.parts[part].reserved
    ensures Conserved(ReserveEffect(c, s, scope, input, part, evidence, t, id))
       <==> forall i :: 0 <= i < |s.reservations| && s.reservations[i].reservationId == ReservationId(id) ==>
              s.reservations[i].status == Released
  {
    hide ReservationFingerprint, ReservationId, Outstanding, PartConserved, PutReservation;
    var rs, r := s.reservations, NewReservation(c, input, t.created, id);
    if i: nat :| i < |rs| && rs[i].reservationId == r.reservationId {
      PutAgain(rs, r, i);
      if rs[i].status == Released {
        TakeConserves(s.parts, rs, part, r, rs[i := r]);
      } else {
        ReplacedBreaks(s.parts, rs, part, r, i);
      }
    } else {
      PutFresh(rs, r);
      TakeConserves(s.parts, rs, part, r, rs + [r]);
    }
  }

  /** Releasing gives back exactly what was taken; the floor at zero is never reached. */
  lemma GiveBackConserves(parts: seq<Part>, rs: seq<Reservation>, i: nat, part: nat, releasedAt: string)
    requires StockConserved(parts, rs) && i < |rs| && rs[i].status == Reserved
    requires part < 2 && parts[part].sku == rs[i].sku
    ensures rs[i].quantity <= parts[part].reserved
    ensures var r := rs[i].(status := Released, releasedAt := releasedAt);
      StockConserved(parts[part := parts[part].(reserved := parts[part].reserved - rs[i].quantity)], rs[i := r])
  {
    var r := rs[i].(status := Released, releasedAt := releasedAt);
    OutstandingBounds(rs, i, rs[i].sku);
    OutstandingUpdate(rs, i, r, SEED_PARTS[0].sku);
    OutstandingUpdate(rs, i, r, SEED_PARTS[1].sku);
    hide Outstanding;
  }

  lemma ReleaseConserves(c: Config, s: Console, session: string, id: Json, t0: int, t1: int)
    requires Conserved(s)
    ensures Conserved(Release(c, s, session, id, t0, t1).1)
  {
    hide BoundedString, PartConserved, Outstanding;
    var rs := s.reservations;
    match BoundedString(id, 1, 128)
    case Err(_) =>
    case Ok(reservationId) =>
      match FindReservation(rs, reservationId)
      case None =>
      case Some(i) =>
        match FindPart(s.parts, rs[i].sku)
        case None =>
        case Some(part) =>
          if rs[i].status == Reserved {
            GiveBackConserves(s.parts, rs, i, part, c.iso(t1));
          }
  }

  // ---- Failures ----

  /** A refused reservation changes nothing but what the sweep at its start removes. */
  lemma ReserveFailureAtomic(c: Config, s: Console, session: string, value: Json, key: Json, evidence: Option<string>,
    t: Readings, id: string)
    ensures Reserve(c, s, session, value, key, evidence, t, id).0.Err? ==>
      Reserve(c, s, session, value, key, evidence, t, id).1 == Swept(s, t.swept)
  {
    hide ReserveInput, Swept, ReserveEffect, ReserveRefusal;
  }

  lemma ReleaseFailureAtomic(c: Config, s: Console, session: string, id: Json, t0: int, t1: int)
    ensures Release(c, s, session, id, t0, t1).0.Err? ==> Release(c, s, session, id, t0, t1).1 == Swept(s, t0)
  {
    hide Swept, BoundedString;
  }

  /** What the sweep removes is only what has expired: stock, reservations and unexpired entries stay. */
  lemma SweptKeeps(s: Console, now: int)
    ensures Swept(s, now).parts == s.parts && Swept(s, now).reservations == s.reservations
    ensures forall k :: k in s.idempotency && s.idempotency[k].expiresAt > now ==>
      k in Swept(s, now).idempotency && Swept(s, now).idempotency[k] == s.idempotency[k]
    ensures forall k :: k in s.sessions && s.sessions[k].expiresAt > now ==>
      k in Swept(s, now).sessions && Swept(s, now).sessions[k] == s.sessions[k]
    ensures forall k :: k in s.confirmations && s.confirmations[k].expiresAt > now ==>
      var session := s.confirmations[k].value.session;
      session in s.sessions && s.sessions[session].expiresAt > now ==>
        k in Swept(s, now).confirmations && Swept(s, now).confirmations[k] == s.confirmations[k]
  {
  }

  /** Releasing again changes nothing and answers the same. */
  lemma ReleaseIdempotent(c: Config, s: Console, session: string, id: Json, t0: int, t1: int, t2: int, t3: int)
    requires Conserved(s) && t0 <= t2
    requires Release(c, s, session, id, t0, t1).0.Ok?
    requires session in Swept(s, t2).sessions
    ensures var (first, s1) := Release(c, s, session, id, t0, t1);
      Release(c, s1, session, id, t2, t3) == (first, Swept(s1, t2))
  {
    hide BoundedString, PartConserved, Outstanding;
    var id' := BoundedString(id, 1, 128).value;
    var i := FindReservation(s.reservations, id').value;
    var (first, s1) := Release(c, s, session, id, t0, t1);
    assert DistinctIds(s1.reservations);
    assert s1.reservations[i] == first.value;
    assert FindReservation(s1.reservations, id') == Some(i);
  }

  // ---- Sessions and evidence ----

  /** A sweep of what a login leaves finds the new session exactly until its lifetime has passed. */
  lemma SessionWindow(c: Config, s: Console, email: Json, password: Json, t0: int, t1: int, session: string,
    token: string, now: int)
    requires Login(c, s, email, password, t0, t1, session, token).0.Ok?
    ensures session in Swept(Login(c, s, email, password, t0, t1, session, token).1, now).sessions
       <==> now < t1 + c.sessionTtlMs
  {
    hide BoundedString, UnexpiredConfirmations;
  }

  /** Logging out ends the session and leaves none of its confirmations. */
  lemma LogoutEnds(c: Config, s: Console, session: string, t0: int, value: Json, key: Json, evidence: Option<string>,
    t: Readings, id: string)
    ensures var s' := Logout(s, session, t0);
      && Reserve(c, s', session, value, key, evidence, t, id) == (Err(AuthRequired), Swept(s', t.swept))
      && forall k :: k in s'.confirmations ==> s'.confirmations[k].value.session != session
  {
    hide ReserveInput, ReserveChecked;
  }
}
