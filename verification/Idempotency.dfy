/** Results kept under an idempotency key for a time, as both in-memory services keep them. */
module Idempotency {
  import opened Wrappers
  import opened Expiring

  datatype Remembered<+R> = Remembered(fingerprint: string, result: R)

  /** An effect that was made, not repeated: under which key, when the call swept and when it stored its result. */
  datatype Creation<+I, +R> = Creation(user: string, key: string, input: I, result: R, swept: int, stored: int)

  /** What a result is stored under: a user and an idempotency key. */
  function Scope(userId: string, key: string): string
  {
    userId + ":" + key
  }

  /** Users without a colon share a scope exactly when they and their keys, which may hold colons, are the same. */
  lemma ScopeExactly(user: string, key: string, user': string, key': string)
    requires ':' !in user && ':' !in user'
    ensures Scope(user, key) == Scope(user', key') <==> user == user' && key == key'
  {
    if Scope(user, key) == Scope(user', key') {
      var s := Scope(user, key);
      assert s[|user|] == ':' && s[|user'|] == ':' && s[..|user|] == user && s[..|user'|] == user';
      assert (forall i :: 0 <= i < |user| ==> user[i] == s[i]) && (forall i :: 0 <= i < |user'| ==> user'[i] == s[i]);
      assert s[|user| + 1..] == key && s[|user'| + 1..] == key';
    }
  }

  function ScopeOf<I, R>(x: Creation<I, R>): string
  {
    Scope(x.user, x.key)
  }

  predicate UnderOneKey<I, R>(x: Creation<I, R>, y: Creation<I, R>)
  {
    x.user == y.user && x.key == y.key
  }

  function Stored<I, R>(fingerprint: I -> string, ttl: int, x: Creation<I, R>): Held<Remembered<R>>
  {
    Held(Remembered(fingerprint(x.input), x.result), x.stored + ttl)
  }

  predicate Remembers<I, R(==)>(fingerprint: I -> string, ttl: int, memory: map<string, Held<Remembered<R>>>,
    x: Creation<I, R>)
  {
    ScopeOf(x) in memory && memory[ScopeOf(x)] == Stored(fingerprint, ttl, x)
  }

  /** What was made is remembered until it expires. */
  ghost predicate Kept<I, R>(fingerprint: I -> string, ttl: int, memory: map<string, Held<Remembered<R>>>,
    xs: seq<Creation<I, R>>, clock: int)
  {
    forall i :: 0 <= i < |xs| && xs[i].stored + ttl > clock ==> Remembers(fingerprint, ttl, memory, xs[i])
  }

  ghost predicate MadeUnder<I, R>(fingerprint: I -> string, ttl: int, scope: string, held: Held<Remembered<R>>,
    xs: seq<Creation<I, R>>)
  {
    exists i :: 0 <= i < |xs| && ScopeOf(xs[i]) == scope && held == Stored(fingerprint, ttl, xs[i])
  }

  /** Nothing is remembered but what was made. */
  ghost predicate Backed<I, R>(fingerprint: I -> string, ttl: int, memory: map<string, Held<Remembered<R>>>,
    xs: seq<Creation<I, R>>)
  {
    forall k :: k in memory ==> MadeUnder(fingerprint, ttl, k, memory[k], xs)
  }

  ghost predicate Spaced<I, R>(ttl: int, xs: seq<Creation<I, R>>)
  {
    forall i, j :: 0 <= i < j < |xs| && UnderOneKey(xs[i], xs[j]) ==> xs[i].stored + ttl <= xs[j].swept
  }

  /** What one call does to the memory of results, between its first and its last reading of the clock. */
  ghost predicate MemoryStep<I, R>(fingerprint: I -> string, ttl: int, m: map<string, Held<Remembered<R>>>,
    m': map<string, Held<Remembered<R>>>, made: Option<Creation<I, R>>, first: int, last: int)
  {
    && (forall k :: k in m && m[k].expiresAt > last && (made.None? || ScopeOf(made.value) != k) ==>
            k in m' && m'[k] == m[k])
    && (forall k :: k in m' && (made.None? || ScopeOf(made.value) != k) ==> k in m && m'[k] == m[k])
    && (made.Some? ==>
          && Remembers(fingerprint, ttl, m', made.value)
          && made.value.swept == first && made.value.stored == last
          && forall k :: k in m && m[k].expiresAt > first ==> k != ScopeOf(made.value))
  }

  /** A call that only sweeps, or sweeps and stores one new result, is such a step. */
  lemma StoreIsStep<I, R>(fingerprint: I -> string, ttl: int, m: map<string, Held<Remembered<R>>>,
    m': map<string, Held<Remembered<R>>>, made: Option<Creation<I, R>>, first: int, last: int)
    requires first <= last
    requires made.None? ==> m' == Unexpired(m, first) || m' == m
    requires made.Some? ==>
      var x := made.value;
      && x.swept == first && x.stored == last && ScopeOf(x) !in Unexpired(m, first)
      && m' == Unexpired(m, first)[ScopeOf(x) := Stored(fingerprint, ttl, x)]
    ensures MemoryStep(fingerprint, ttl, m, m', made, first, last)
  {
    hide Scope;
    if made.Some? {
      var x := made.value;
      assert ScopeOf(x) in m' && m'[ScopeOf(x)] == Stored(fingerprint, ttl, x);
    }
  }

  function Grown<T>(xs: seq<T>, x: Option<T>): seq<T>
  {
    if x.Some? then xs + [x.value] else xs
  }

  /** A result is remembered until it expires, and no effect follows under its key before that. */
  lemma StepKeepsOnce<I, R>(fingerprint: I -> string, ttl: int, m: map<string, Held<Remembered<R>>>,
    m': map<string, Held<Remembered<R>>>, xs: seq<Creation<I, R>>, made: Option<Creation<I, R>>,
    clock: int, first: int, last: int)
    requires Kept(fingerprint, ttl, m, xs, clock) && Spaced(ttl, xs) && clock <= first <= last
    requires MemoryStep(fingerprint, ttl, m, m', made, first, last)
    ensures Kept(fingerprint, ttl, m', Grown(xs, made), last) && Spaced(ttl, Grown(xs, made))
  {
    hide Scope;
    forall i | 0 <= i < |xs| && xs[i].stored + ttl > first
      ensures made.Some? ==> ScopeOf(made.value) != ScopeOf(xs[i])
      ensures xs[i].stored + ttl > last ==> Remembers(fingerprint, ttl, m', xs[i])
    {
      assert Remembers(fingerprint, ttl, m, xs[i]);
    }
  }

  /** Nothing comes to be remembered that was not made. */
  lemma StepKeepsBacked<I, R>(fingerprint: I -> string, ttl: int, m: map<string, Held<Remembered<R>>>,
    m': map<string, Held<Remembered<R>>>, xs: seq<Creation<I, R>>, made: Option<Creation<I, R>>, first: int, last: int)
    requires Backed(fingerprint, ttl, m, xs) && MemoryStep(fingerprint, ttl, m, m', made, first, last)
    ensures Backed(fingerprint, ttl, m', Grown(xs, made))
  {
    hide ScopeOf, Stored;
    var xs' := Grown(xs, made);
    forall k | k in m'
      ensures MadeUnder(fingerprint, ttl, k, m'[k], xs')
    {
      if made.Some? && ScopeOf(made.value) == k {
        assert xs'[|xs|] == made.value;
      } else {
        assert MadeUnder(fingerprint, ttl, k, m[k], xs);
        var i :| 0 <= i < |xs| && ScopeOf(xs[i]) == k && m[k] == Stored(fingerprint, ttl, xs[i]);
        assert xs'[i] == xs[i];
      }
    }
  }

  /** A key is free at a time when nothing was made under it whose result has not expired by then. */
  ghost predicate Free<I, R>(ttl: int, xs: seq<Creation<I, R>>, user: string, key: string, now: int)
  {
    forall i :: 0 <= i < |xs| && xs[i].user == user && xs[i].key == key ==> xs[i].stored + ttl <= now
  }

  ghost predicate PlainUsers<I, R>(xs: seq<Creation<I, R>>)
  {
    forall i :: 0 <= i < |xs| ==> ':' !in xs[i].user
  }

  /** An unexpired result stands under the scope of a key exactly when the key is not free, whatever other keys hold. */
  lemma FreeExactly<I, R>(fingerprint: I -> string, ttl: int, m: map<string, Held<Remembered<R>>>,
    xs: seq<Creation<I, R>>, clock: int, user: string, key: string, now: int)
    requires Kept(fingerprint, ttl, m, xs, clock) && Backed(fingerprint, ttl, m, xs) && clock <= now
    requires PlainUsers(xs) && ':' !in user
    ensures Scope(user, key) !in Unexpired(m, now) <==> Free(ttl, xs, user, key, now)
  {
    var scope := Scope(user, key);
    if scope in Unexpired(m, now) {
      assert MadeUnder(fingerprint, ttl, scope, m[scope], xs);
      var i :| 0 <= i < |xs| && ScopeOf(xs[i]) == scope && m[scope] == Stored(fingerprint, ttl, xs[i]);
      ScopeExactly(xs[i].user, xs[i].key, user, key);
    }
    forall i | 0 <= i < |xs| && xs[i].user == user && xs[i].key == key && xs[i].stored + ttl > now
      ensures scope in Unexpired(m, now)
    {
      assert Remembers(fingerprint, ttl, m, xs[i]);
    }
  }
}
