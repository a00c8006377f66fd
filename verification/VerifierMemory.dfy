/**
 The verifier without a replay file: its store is a map in memory, which a restart empties. What it promises is kept
 for as long as one process lives; a restart makes exactly the requests acceptable again whose window is open.
 */
module VerifierMemory {
  import opened Wrappers
  import opened JsonText
  import opened ReplayStore
  import opened VerifierEnvelope
  import opened VerifierCalls
  import opened VerifierServer

  // ---- One call ----

  /** What reaches the server: the operation of the path, the body, the header, and whether the signature verifies. */
  datatype Call = Call(operation: string, body: string, authorization: Option<string>, signed: bool)

  function Examined(p: Platform, call: Call, now: int): Verdict
  {
    Examine(p, call.operation, call.body, call.authorization, call.signed, Some(now))
  }

  function AdmitBoth(m: map<string, int>, max: int, requestId: string, nonceDigest: string, expiresAt: int, now: int)
    : Admission
  {
    var first := AdmitInto(m, max, RequestKey(requestId), expiresAt, now);
    if !first.ok then first else AdmitInto(first.held, max, NonceKey(nonceDigest), expiresAt, now)
  }

  /** `verifyVerifierRequest` on the memory store. */
  function Verified(p: Platform, call: Call, now: int, m: map<string, int>, max: int): (Verdict, map<string, int>)
  {
    match Examined(p, call, now)
    case Admitted(r) =>
      var a := AdmitBoth(m, max, r.requestId, r.nonceDigest, DateOf(p, r.expiresAt), now);
      (if a.ok then Admitted(r) else Rejected(409, "RELEASE_VERIFIER_REQUEST_REPLAYED"), a.held)
    case verdict => (verdict, m)
  }

  method VerifyInMemory(p: Platform, call: Call, now: int, store: MemoryReplayStore) returns (verdict: Verdict)
    modifies store.admitted
    ensures (verdict, store.admitted.entries) == Verified(p, call, now, old(store.admitted.entries), store.maxEntries)
  {
    hide Examine, KeyOk;
    verdict := Examined(p, call, now);
    if verdict.Admitted? {
      var r := verdict.request;
      var ok := store.Admit(RequestKey(r.requestId), DateOf(p, r.expiresAt), now);
      if ok {
        ok := store.Admit(NonceKey(r.nonceDigest), DateOf(p, r.expiresAt), now);
      }
      if !ok {
        verdict := Rejected(409, "RELEASE_VERIFIER_REQUEST_REPLAYED");
      }
    }
  }

  /** What the checks that look at the time leave of the others. */
  lemma ExaminedLater(p: Platform, call: Call, now: int, later: int)
    requires Examined(p, call, now).Admitted?
    ensures var r := Examined(p, call, now).request;
      && DateOf(p, r.issuedAt) <= now < DateOf(p, r.expiresAt)
      && Examined(p, call, later)
         == if later < DateOf(p, r.issuedAt) then Invalid("RELEASE_VERIFIER_REQUEST_FUTURE")
            else if DateOf(p, r.expiresAt) <= later then Invalid("RELEASE_VERIFIER_REQUEST_EXPIRED")
            else Admitted(r)
  {
    hide Canonical, Parse, CheckEnvelope, ValidBearer;
  }

  /** A body is admitted as one request only, whatever else comes with it. */
  lemma ExaminedBody(p: Platform, a: Call, t1: int, b: Call, t2: int)
    requires Examined(p, a, t1).Admitted? && Examined(p, b, t2).Admitted? && a.body == b.body
    ensures Examined(p, a, t1).request.requestId == Examined(p, b, t2).request.requestId
    ensures Examined(p, a, t1).request.expiresAt == Examined(p, b, t2).request.expiresAt
  {
    hide Canonical, Parse, CheckEnvelope, ValidBearer;
  }

  lemma ExaminedKeys(p: Platform, call: Call, now: int)
    requires Sound(p) && Examined(p, call, now).Admitted?
    ensures var r := Examined(p, call, now).request;
      && KeyOk(RequestKey(r.requestId)) && KeyOk(NonceKey(r.nonceDigest))
      && RequestKey(r.requestId) != NonceKey(r.nonceDigest)
  {
    hide Canonical, Parse, ValidBearer, KeyOk, RequestKey, NonceKey, ValidTimestamp, ValidScope, IsUuidV4;
    var f := ParseCanonical(call.body).value.fields;
    KeysFit(p, f["requestId"].s, f["nonce"].s, 0);
  }

  lemma AdmitsBoth(m: map<string, int>, max: int, requestId: string, nonceDigest: string, expiresAt: int, now: int)
    requires KeyOk(RequestKey(requestId)) && KeyOk(NonceKey(nonceDigest))
    requires RequestKey(requestId) != NonceKey(nonceDigest) && now < expiresAt
    ensures var live := Live(m, now); var a := AdmitBoth(m, max, requestId, nonceDigest, expiresAt, now);
      && (a.ok <==> |live| + 2 <= max && RequestKey(requestId) !in live && NonceKey(nonceDigest) !in live)
      && (a.ok ==> a.held == live[RequestKey(requestId) := expiresAt][NonceKey(nonceDigest) := expiresAt])
      && Live(a.held, now) == a.held && live.Items <= a.held.Items
  {
    hide KeyOk, RequestKey, NonceKey;
    var k1, k2, live := RequestKey(requestId), NonceKey(nonceDigest), Live(m, now);
    assert Live(live, now) == live;
    if k1 !in live {
      var held := live[k1 := expiresAt];
      assert Live(held, now) == held;
      assert |held| == |live| + 1;
    }
  }

  /** A call is accepted exactly when its checks pass, neither key is unexpired and two more entries fit. */
  lemma AcceptedExactly(p: Platform, call: Call, now: int, m: map<string, int>, max: int)
    requires Sound(p)
    ensures var e := Examined(p, call, now); var live := Live(m, now);
      Verified(p, call, now, m, max).0.Admitted?
      <==> && e.Admitted? && |live| + 2 <= max
           && RequestKey(e.request.requestId) !in live && NonceKey(e.request.nonceDigest) !in live
  {
    hide Examine, AdmitBoth, KeyOk, RequestKey, NonceKey;
    var e := Examined(p, call, now);
    if e.Admitted? {
      ExaminedLater(p, call, now, now);
      ExaminedKeys(p, call, now);
      AdmitsBoth(m, max, e.request.requestId, e.request.nonceDigest, DateOf(p, e.request.expiresAt), now);
    }
  }

  // ---- Runs ----

  datatype Event = Tick(to: int) | Receive(call: Call) | Restart

  /** An accepted call, when that was, and by which of the processes that ran one after the other. */
  datatype Acceptance = Acceptance(call: Call, request: Accepted, at: int, process: nat)

  datatype State = State(clock: int, held: map<string, int>, process: nat, accepted: seq<Acceptance>)

  function Step(p: Platform, max: int, s: State, e: Event): State
  {
    match e
    case Tick(to) => if to < s.clock then s else s.(clock := to)
    case Receive(call) =>
      var (verdict, held) := Verified(p, call, s.clock, s.held, max);
      if verdict.Admitted? then
        s.(held := held, accepted := s.accepted + [Acceptance(call, verdict.request, s.clock, s.process)])
      else s.(held := held)
    case Restart => s.(held := map[], process := s.process + 1)
  }

  /** The state after some events, from a server that has just started. */
  function Run(p: Platform, max: int, clock: int, events: seq<Event>): State
  {
    if events == [] then State(clock, map[], 0, [])
    else Step(p, max, Run(p, max, clock, events[..|events| - 1]), events[|events| - 1])
  }

  function Expiry(p: Platform, a: Acceptance): int
  {
    DateOf(p, a.request.expiresAt)
  }

  predicate SharesKey(a: Acceptance, b: Acceptance)
  {
    a.request.requestId == b.request.requestId || a.request.nonceDigest == b.request.nonceDigest
  }

  ghost predicate Genuine(p: Platform, s: State)
  {
    forall j :: 0 <= j < |s.accepted| ==>
      && s.accepted[j].at <= s.clock && s.accepted[j].process <= s.process
      && Examined(p, s.accepted[j].call, s.accepted[j].at) == Admitted(s.accepted[j].request)
  }

  predicate HoldsKeys(p: Platform, held: map<string, int>, a: Acceptance)
  {
    && (RequestKey(a.request.requestId), Expiry(p, a)) in held.Items
    && (NonceKey(a.request.nonceDigest), Expiry(p, a)) in held.Items
  }

  /** The running process holds both keys of what it accepted and what has not expired. */
  ghost predicate Remembers(p: Platform, s: State)
  {
    forall j :: 0 <= j < |s.accepted| && s.accepted[j].process == s.process && Expiry(p, s.accepted[j]) > s.clock ==>
      HoldsKeys(p, s.held, s.accepted[j])
  }

  ghost predicate Apart(p: Platform, accepted: seq<Acceptance>)
  {
    forall j, k ::
      0 <= j < k < |accepted| && accepted[j].process == accepted[k].process && SharesKey(accepted[j], accepted[k])
      ==> Expiry(p, accepted[j]) <= accepted[k].at
  }

  ghost predicate Invariant(p: Platform, s: State)
  {
    Genuine(p, s) && Remembers(p, s) && Apart(p, s.accepted)
  }

  lemma ReceiveAdmits(p: Platform, max: int, s: State, call: Call)
    requires Sound(p)
    ensures var (verdict, held) := Verified(p, call, s.clock, s.held, max);
      && (forall k, x :: (k, x) in s.held.Items && x > s.clock ==> (k, x) in held.Items)
      && (verdict.Admitted? ==>
            var a := Acceptance(call, verdict.request, s.clock, s.process);
            && Examined(p, call, s.clock) == verdict && HoldsKeys(p, held, a)
            && RequestKey(a.request.requestId) !in Live(s.held, s.clock)
            && NonceKey(a.request.nonceDigest) !in Live(s.held, s.clock))
  {
    hide Examine, AdmitBoth, KeyOk, RequestKey, NonceKey;
    var e := Examined(p, call, s.clock);
    if e.Admitted? {
      ExaminedLater(p, call, s.clock, s.clock);
      ExaminedKeys(p, call, s.clock);
      AdmitsBoth(s.held, max, e.request.requestId, e.request.nonceDigest, DateOf(p, e.request.expiresAt), s.clock);
    }
  }

  lemma ReceiveKeeps(p: Platform, max: int, s: State, call: Call)
    requires Sound(p) && Invariant(p, s)
    ensures Invariant(p, Step(p, max, s, Receive(call)))
  {
    hide Examined, Verified, RequestKey, NonceKey;
    ReceiveAdmits(p, max, s, call);
    var s' := Step(p, max, s, Receive(call));
    assert Remembers(p, s');
    assert Apart(p, s'.accepted) by {
      forall j, k | 0 <= j < k < |s'.accepted| && s'.accepted[j].process == s'.accepted[k].process
        && SharesKey(s'.accepted[j], s'.accepted[k])
        ensures Expiry(p, s'.accepted[j]) <= s'.accepted[k].at
      {
        if k == |s.accepted| {
          assert Expiry(p, s.accepted[j]) > s.clock ==> HoldsKeys(p, s.held, s.accepted[j]);
        }
      }
    }
  }

  lemma {:induction false} RunKeeps(p: Platform, max: int, clock: int, events: seq<Event>)
    requires Sound(p)
    ensures Invariant(p, Run(p, max, clock, events))
  {
    if events != [] {
      hide Examined, Verified, HoldsKeys, SharesKey;
      RunKeeps(p, max, clock, events[..|events| - 1]);
      var s, e := Run(p, max, clock, events[..|events| - 1]), events[|events| - 1];
      if e.Receive? {
        ReceiveKeeps(p, max, s, e.call);
      }
    }
  }

  /**
   At most once in the life of a process: of two calls that one process accepts the bodies differ, and they share a
   request identifier or a nonce only when the first has expired.
   */
  lemma AcceptedAtMostOncePerProcess(p: Platform, max: int, clock: int, events: seq<Event>, j: nat, k: nat)
    requires Sound(p) && j < k < |Run(p, max, clock, events).accepted|
    requires var s := Run(p, max, clock, events); s.accepted[j].process == s.accepted[k].process
    ensures var s := Run(p, max, clock, events);
      && s.accepted[j].call.body != s.accepted[k].call.body
      && (SharesKey(s.accepted[j], s.accepted[k]) ==> Expiry(p, s.accepted[j]) <= s.accepted[k].at)
  {
    hide Examine, Run, HoldsKeys;
    RunKeeps(p, max, clock, events);
    var s := Run(p, max, clock, events);
    var a, b := s.accepted[j], s.accepted[k];
    if a.call.body == b.call.body {
      ExaminedBody(p, a.call, a.at, b.call, b.at);
      ExaminedLater(p, b.call, b.at, b.at);
    }
  }

  /** A process that has just started accepts exactly what passes the checks, if it can hold anything. */
  lemma RestartAccepts(p: Platform, max: int, s: State, later: int, call: Call)
    requires Sound(p) && s.clock <= later
    ensures var s0 := Step(p, max, Step(p, max, s, Restart), Tick(later));
      |Step(p, max, s0, Receive(call)).accepted| > |s.accepted| <==> Examined(p, call, later).Admitted? && max >= 2
  {
    hide Examined, Verified, RequestKey, NonceKey;
    AcceptedExactly(p, call, later, map[], max);
    assert Live(map[], later) == map[];
  }

  /** Exactly what a restart makes acceptable again: of the calls accepted before it, those whose window is open. */
  lemma RestartForgets(p: Platform, max: int, clock: int, events: seq<Event>, j: nat, later: int)
    requires Sound(p) && j < |Run(p, max, clock, events).accepted| && Run(p, max, clock, events).clock <= later
    ensures var s := Run(p, max, clock, events);
      var s0 := Step(p, max, Step(p, max, s, Restart), Tick(later));
      |Step(p, max, s0, Receive(s.accepted[j].call)).accepted| > |s.accepted| <==> later < Expiry(p, s.accepted[j])
  {
    hide Examine, Step, Run, Verified;
    RunKeeps(p, max, clock, events);
    RunRoom(p, max, clock, events);
    var s := Run(p, max, clock, events);
    var a := s.accepted[j];
    RestartAccepts(p, max, s, later, a.call);
    ExaminedLater(p, a.call, a.at, later);
  }

  lemma {:induction false} RunRoom(p: Platform, max: int, clock: int, events: seq<Event>)
    requires Sound(p)
    ensures Run(p, max, clock, events).accepted != [] ==> max >= 2
  {
    if events != [] {
      hide Examined, Verified, RequestKey, NonceKey;
      RunRoom(p, max, clock, events[..|events| - 1]);
      var s, e := Run(p, max, clock, events[..|events| - 1]), events[|events| - 1];
      if e.Receive? {
        AcceptedExactly(p, e.call, s.clock, s.held, max);
      }
    }
  }
}
