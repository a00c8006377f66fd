/** Maps whose entries expire, as both in-memory services keep them, and the loops that sweep them. */
module Expiring {
  import Collections

  datatype Held<+V> = Held(value: V, expiresAt: int)

  /** Evidence that an operator confirmed one input under one idempotency key, in one session. */
  datatype Confirmation = Confirmation(session: string, fingerprint: string, idempotencyKey: string)

  /** The evidence an issued confirmation is known by. */
  function Evidence(id: string): string
  {
    "cnf_" + id
  }

  function Unexpired<V>(m: map<string, Held<V>>, now: int): map<string, Held<V>>
  {
    map k | k in m && m[k].expiresAt > now :: m[k]
  }

  /** Confirmations also end with their session. */
  function UnexpiredConfirmations(m: map<string, Held<Confirmation>>, sessions: set<string>, now: int)
    : map<string, Held<Confirmation>>
  {
    map k | k in m && m[k].expiresAt > now && m[k].value.session in sessions :: m[k]
  }

  method SweepExpired<V>(m: map<string, Held<V>>, now: int) returns (live: map<string, Held<V>>)
    ensures live == Unexpired(m, now)
  {
    live := m;
    var pending := m.Keys;
    while pending != {}
      invariant pending <= m.Keys
      invariant live == map k | k in m && (k in pending || m[k].expiresAt > now) :: m[k]
      decreases pending
    {
      var k :| k in pending;
      if m[k].expiresAt <= now {
        live := live - {k};
      }
      pending := pending - {k};
    }
  }

  method SweepConfirmations(m: map<string, Held<Confirmation>>, sessions: set<string>, now: int)
    returns (live: map<string, Held<Confirmation>>)
    ensures live == UnexpiredConfirmations(m, sessions, now)
  {
    live := m;
    var pending := m.Keys;
    while pending != {}
      invariant pending <= m.Keys
      invariant live == map k | k in m
        && (k in pending || (m[k].expiresAt > now && m[k].value.session in sessions)) :: m[k]
      decreases pending
    {
      var k :| k in pending;
      if m[k].expiresAt <= now || m[k].value.session !in sessions {
        live := live - {k};
      }
      pending := pending - {k};
    }
  }

  /** The confirmations that are not of one session. */
  method DropConfirmations(m: map<string, Held<Confirmation>>, session: string)
    returns (rest: map<string, Held<Confirmation>>)
    ensures rest == map k | k in m && m[k].value.session != session :: m[k]
  {
    rest := m;
    var pending := m.Keys;
    while pending != {}
      invariant pending <= m.Keys
      invariant rest == map k | k in m && (k in pending || m[k].value.session != session) :: m[k]
      decreases pending
    {
      var k :| k in pending;
      if m[k].value.session == session {
        rest := rest - {k};
      }
      pending := pending - {k};
    }
  }

  // ---- Sizes ----

  /** Sweeping never grows a map. */
  lemma UnexpiredSize<V>(m: map<string, Held<V>>, now: int)
    ensures |Unexpired(m, now)| <= |m|
  {
    Collections.SubsetSize(Unexpired(m, now).Keys, m.Keys);
  }

  lemma UnexpiredConfirmationsSize(m: map<string, Held<Confirmation>>, sessions: set<string>, now: int)
    ensures |UnexpiredConfirmations(m, sessions, now)| <= |m|
  {
    Collections.SubsetSize(UnexpiredConfirmations(m, sessions, now).Keys, m.Keys);
  }
}
