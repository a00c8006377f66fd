/**
 What the replay stores guarantee over whole runs: the sweeping map answers as an ideal log of all admissions
 would, and the durable store remembers every admission through failed writes and restarts.
 */
module ReplayRuns {
  import opened Wrappers
  import opened Unicode
  import opened Decimal
  import opened ReplayFile
  import opened ReplayStore
  import Collections
  import UriComponent

  // ---- The ideal log ----

  /** Which of the two is asked: a store, which looks at the key first, or the client's guard, which does not. */
  datatype Asked = Store | Guard

  function AdmitBy(w: Asked, m: map<string, int>, max: int, key: string, expiresAt: int, now: int): Admission
  {
    match w
    case Store => AdmitInto(m, max, key, expiresAt, now)
    case Guard => AdmitKey(m, max, key, expiresAt, now)
  }

  /** The admissions whose expiry is after `now`. */
  function LiveCount(log: seq<Entry>, now: int): nat
  {
    if log == [] then 0
    else LiveCount(log[..|log| - 1], now) + (if log[|log| - 1].expiresAt > now then 1 else 0)
  }

  ghost predicate IdealAdmits(w: Asked, log: seq<Entry>, max: int, key: string, now: int)
  {
    && (w == Store ==> KeyOk(key))
    && (forall i :: 0 <= i < |log| && log[i].key == key ==> log[i].expiresAt <= now)
    && LiveCount(log, now) < max
  }

  datatype Call = Call(key: string, expiresAt: int, now: int)

  ghost predicate Monotone(calls: seq<Call>)
  {
    forall i, j :: 0 <= i < j < |calls| ==> calls[i].now <= calls[j].now
  }

  /** The map a store holds after some calls. */
  function Held(w: Asked, max: int, calls: seq<Call>): map<string, int>
  {
    if calls == [] then map[]
    else
      var c := calls[|calls| - 1];
      AdmitBy(w, Held(w, max, calls[..|calls| - 1]), max, c.key, c.expiresAt, c.now).held
  }

  /** Whether the last of some calls is admitted. */
  predicate LastAdmitted(w: Asked, max: int, calls: seq<Call>)
    requires calls != []
  {
    var c := calls[|calls| - 1];
    AdmitBy(w, Held(w, max, calls[..|calls| - 1]), max, c.key, c.expiresAt, c.now).ok
  }

  /** Every admission so far, never swept: the log an ideal store would decide from. */
  ghost function IdealLog(w: Asked, max: int, calls: seq<Call>): seq<Entry>
  {
    if calls == [] then []
    else
      var c := calls[|calls| - 1];
      var log := IdealLog(w, max, calls[..|calls| - 1]);
      if IdealAdmits(w, log, max, c.key, c.now) then log + [Entry(c.key, c.expiresAt)] else log
  }

  ghost predicate Refines(held: map<string, int>, log: seq<Entry>, clock: int)
  {
    && (forall i :: 0 <= i < |log| && log[i].expiresAt > clock ==>
          log[i].key in held && held[log[i].key] == log[i].expiresAt)
    && (forall k :: k in held && held[k] > clock ==> Entry(k, held[k]) in log)
    && (forall i, j :: 0 <= i < j < |log| && log[i].key == log[j].key ==> log[i].expiresAt <= clock)
  }

  function LiveKeys(log: seq<Entry>, now: int): set<string>
  {
    set i | 0 <= i < |log| && log[i].expiresAt > now :: log[i].key
  }

  lemma LiveKeysAppend(log: seq<Entry>, e: Entry, now: int)
    ensures LiveKeys(log + [e], now) == LiveKeys(log, now) + if e.expiresAt > now then {e.key} else {}
  {
    var log' := log + [e];
    forall k
      ensures k in LiveKeys(log', now) <==> k in LiveKeys(log, now) || (e.expiresAt > now && k == e.key)
    {
      if k in LiveKeys(log, now) {
        var i :| 0 <= i < |log| && log[i].expiresAt > now && log[i].key == k;
        assert log'[i] == log[i];
      }
      assert log'[|log|] == e;
    }
  }

  ghost predicate OnceLive(log: seq<Entry>, now: int)
  {
    forall i, j :: 0 <= i < j < |log| && log[i].key == log[j].key ==> log[i].expiresAt <= now
  }

  lemma LastKeyNew(before: seq<Entry>, e: Entry, now: int)
    requires OnceLive(before + [e], now)
    ensures e.key !in LiveKeys(before, now) && OnceLive(before, now)
  {
    var log := before + [e];
    assert log[|before|] == e && forall i :: 0 <= i < |before| ==> log[i] == before[i];
  }

  lemma {:induction false} LiveCountIsKeys(log: seq<Entry>, now: int)
    requires OnceLive(log, now)
    ensures LiveCount(log, now) == |LiveKeys(log, now)|
  {
    if log != [] {
      hide OnceLive, LiveKeys;
      var before, e := log[..|log| - 1], log[|log| - 1];
      assert log == before + [e];
      LastKeyNew(before, e, now);
      LiveCountIsKeys(before, now);
      LiveKeysAppend(before, e, now);
    } else {
      assert LiveKeys(log, now) == {};
    }
  }

  lemma RefinesLater(held: map<string, int>, log: seq<Entry>, clock: int, now: int)
    requires Refines(held, log, clock) && clock <= now
    ensures Refines(Live(held, now), log, now) && Refines(held, log, now)
  {
  }

  lemma RefinedAnswer(
    w: Asked, held: map<string, int>, log: seq<Entry>, max: int, key: string, now: int, expiresAt: int)
    requires Refines(Live(held, now), log, now)
    ensures AdmitBy(w, held, max, key, expiresAt, now).ok <==> IdealAdmits(w, log, max, key, now)
  {
    LiveCountIsKeys(log, now);
    var live := Live(held, now);
    forall k
      ensures k in LiveKeys(log, now) <==> k in live.Keys
    {
      if k in live {
        var i :| 0 <= i < |log| && log[i] == Entry(k, live[k]);
        assert log[i].key in LiveKeys(log, now);
      }
    }
    assert LiveKeys(log, now) == live.Keys;
    assert |live| == |live.Keys|;
    assert key in live <==> exists i :: 0 <= i < |log| && log[i].key == key && log[i].expiresAt > now;
  }

  lemma AdmitMap(w: Asked, m: map<string, int>, max: int, key: string, expiresAt: int, now: int)
    ensures var a := AdmitBy(w, m, max, key, expiresAt, now);
      if a.ok then a.held == Live(m, now)[key := expiresAt] else a.held == Live(m, now) || a.held == m
  {
    hide KeyOk;
  }

  lemma IdealMeansExpired(w: Asked, log: seq<Entry>, max: int, key: string, now: int)
    requires IdealAdmits(w, log, max, key, now)
    ensures forall i :: 0 <= i < |log| && log[i].key == key ==> log[i].expiresAt <= now
  {
  }

  lemma {:induction false} HeldRefinesIdeal(w: Asked, max: int, calls: seq<Call>)
    requires Monotone(calls)
    ensures calls == [] ==> Held(w, max, calls) == map[] && IdealLog(w, max, calls) == []
    ensures calls != [] ==> Refines(Held(w, max, calls), IdealLog(w, max, calls), calls[|calls| - 1].now)
    ensures calls != [] ==>
      var prior := calls[..|calls| - 1];
      LastAdmitted(w, max, calls) <==>
      IdealAdmits(w, IdealLog(w, max, prior), max, calls[|calls| - 1].key, calls[|calls| - 1].now)
  {
    if calls != [] {
      hide AdmitBy, IdealAdmits, Live, Refines;
      var prior, c := calls[..|calls| - 1], calls[|calls| - 1];
      HeldRefinesIdeal(w, max, prior);
      var held, log := Held(w, max, prior), IdealLog(w, max, prior);
      if prior == [] {
        NothingRefines(c.now);
      } else {
        assert prior[|prior| - 1] == calls[|prior| - 1];
        RefinesLater(held, log, prior[|prior| - 1].now, c.now);
      }
      RefinedAnswer(w, held, log, max, c.key, c.now, c.expiresAt);
      AdmitMap(w, held, max, c.key, c.expiresAt, c.now);
      if LastAdmitted(w, max, calls) {
        IdealMeansExpired(w, log, max, c.key, c.now);
        RefinesAppend(Live(held, c.now), log, c.now, Entry(c.key, c.expiresAt));
      }
    }
  }

  lemma NothingRefines(now: int)
    ensures Refines(map[], [], now) && Refines(Live(map[], now), [], now)
  {
  }

  lemma RefinesAppend(live: map<string, int>, log: seq<Entry>, now: int, e: Entry)
    requires Refines(live, log, now)
    requires forall i :: 0 <= i < |log| && log[i].key == e.key ==> log[i].expiresAt <= now
    ensures Refines(live[e.key := e.expiresAt], log + [e], now)
  {
    var log', held := log + [e], live[e.key := e.expiresAt];
    assert log'[|log|] == e;
    forall k | k in held && held[k] > now
      ensures Entry(k, held[k]) in log'
    {
      if k != e.key {
        assert Entry(k, live[k]) in log;
      }
    }
  }

  /**
   Sweep refinement: with a clock that never goes backwards, each call of a store is admitted exactly when its key is
   well formed, no admission of it is unexpired and fewer than `max` admissions are; each call of the guard exactly
   when the last two hold.
   */
  lemma SweepRefinesLog(w: Asked, max: int, calls: seq<Call>, n: nat)
    requires Monotone(calls) && n < |calls|
    ensures LastAdmitted(w, max, calls[..n + 1])
       <==> IdealAdmits(w, IdealLog(w, max, calls[..n]), max, calls[n].key, calls[n].now)
  {
    assert calls[..n + 1][..n] == calls[..n];
    HeldRefinesIdeal(w, max, calls[..n + 1]);
  }

  lemma ByKey(w: Asked, m: map<string, int>, max: int, key: string, expiresAt: int, now: int)
    requires KeyOk(key)
    ensures AdmitBy(w, m, max, key, expiresAt, now) == AdmitKey(m, max, key, expiresAt, now)
  {
  }

  /** Why the clock must not go backwards: a call in between sweeps, and a rewound clock then readmits the key. */
  lemma RewindReadmits(
    w: Asked, max: int, key: string, expiresAt: int, t1: int, other: string, otherExpiry: int, t2: int, t3: int,
    again: int)
    requires max >= 3 && KeyOk(key) && KeyOk(other) && key != other && t1 < expiresAt
    ensures var calls := [Call(key, expiresAt, t1), Call(other, otherExpiry, t2), Call(key, again, t3)];
      LastAdmitted(w, max, calls) <==> expiresAt <= t2 || expiresAt <= t3
  {
    hide AdmitBy, KeyOk;
    var c1, c2, c3 := Call(key, expiresAt, t1), Call(other, otherExpiry, t2), Call(key, again, t3);
    assert [c1, c2, c3][..2] == [c1, c2] && [c1, c2][..1] == [c1] && [c1][..0] == [];
    assert Live(map[], t1) == map[];
    var h1: map<string, int> := map[key := expiresAt];
    assert Held(w, max, []) == map[];
    ByKey(w, map[], max, key, expiresAt, t1);
    assert Held(w, max, [c1]) == h1;
    var h2 := Live(h1, t2);
    assert h2 == if expiresAt > t2 then h1 else map[];
    assert |h2| < max;
    ByKey(w, h1, max, other, otherExpiry, t2);
    assert Held(w, max, [c1, c2]) == h2[other := otherExpiry];
    ByKey(w, h2[other := otherExpiry], max, key, again, t3);
    var h3 := Live(h2[other := otherExpiry], t3);
    assert key in h3 <==> expiresAt > t2 && expiresAt > t3;
    assert h3.Keys <= {key, other};
    Collections.SubsetSize(h3.Keys, {key, other});
    assert |h3| == |h3.Keys| <= 2;
  }

  /**
   One call of the durable store, branch by branch: it admits a well-formed key that is not held unexpired, while there
   is room, its line fits and is flushed; a failed write keeps the key out of the map, though its line may be written.
   */
  lemma DurableAdmitsExactly(d: Durable, max: int, open: bool, key: string, expiresAt: int, now: int, write: Write)
    ensures var (ok, d') := AdmitDurable(d, max, open, key, expiresAt, now, write);
      var live := map k | k in d.held && d.held[k] > now :: d.held[k];
      var proper := 1 <= |Units(key)| <= 128;
      var written := proper && key !in live && |live| < max && open
        && ByteLength(UriComponent.Encode(key)) + ByteLength(Print(expiresAt)) + 2 <= 256;
      && (ok <==> written && write == Flushed)
      && d'.held == (if !proper then d.held else if ok then live[key := expiresAt] else live)
      && d'.log == (if written && write != FailedBefore then d.log + [Entry(key, expiresAt)] else d.log)
  {
    hide Units, ByteLength, UriComponent.Encode, Print, Line;
    LineBytes(Entry(key, expiresAt));
    var live := Live(d.held, now);
    assert key !in live ==> live[key := expiresAt] - {key} == live;
  }

  lemma LineBytes(e: Entry)
    ensures ByteLength(Line(e)) == ByteLength(UriComponent.Encode(e.key)) + ByteLength(Print(e.expiresAt)) + 2
  {
    hide ByteLength, UriComponent.Encode, Print;
    AsciiLengths(" ");
    AsciiLengths("\n");
    LineSplits(e, "");
    assert Line(e) + "" == Line(e) && "\n" + "" == "\n";
    ByteLengthConcat(LineText(e), "\n");
    ByteLengthConcat(UriComponent.Encode(e.key), " " + Print(e.expiresAt));
    ByteLengthConcat(" ", Print(e.expiresAt));
  }

  // ---- Runs of the durable store ----

  datatype StoreEvent =
    | Admit(key: string, expiresAt: int, now: int, write: Write)
    | Restarted(now: int, order: seq<string>)

  /** An admission the store answered yes to, and when. */
  datatype Ack = Ack(key: string, expiresAt: int, at: int)

  datatype History = History(store: Durable, acks: seq<Ack>)

  /** One call, or one crash followed by a restart that lists the reloaded map in some order. */
  ghost function StoreStep(max: int, h: History, e: StoreEvent): History
  {
    match e
    case Admit(key, expiresAt, now, write) =>
      var (ok, store) := AdmitDurable(h.store, max, true, key, expiresAt, now, write);
      History(store, if ok then h.acks + [Ack(key, expiresAt, now)] else h.acks)
    case Restarted(now, order) =>
      if ListsKeys(order, Reloaded(h.store, now).Keys) then History(Restart(h.store, now, order), h.acks) else h
  }

  /** The history after some events, starting from what the store was opened with. */
  ghost function StoreRun(max: int, start: Durable, events: seq<StoreEvent>): History
  {
    if events == [] then History(start, [])
    else StoreStep(max, StoreRun(max, start, events[..|events| - 1]), events[|events| - 1])
  }

  ghost predicate MonotoneEvents(events: seq<StoreEvent>)
  {
    forall i, j :: 0 <= i < j < |events| ==> events[i].now <= events[j].now
  }

  /** The expiry on the last line for a key. */
  function LastLine(log: seq<Entry>, key: string): Option<int>
  {
    if log == [] then None
    else if log[|log| - 1].key == key then Some(log[|log| - 1].expiresAt)
    else LastLine(log[..|log| - 1], key)
  }

  /** Every held key is on the file, and its last line has the held expiry. */
  ghost predicate StoreInvariant(d: Durable)
  {
    forall k :: k in d.held ==> LastLine(d.log, k) == Some(d.held[k])
  }

  predicate Durably(a: Ack)
  {
    Recordable(Entry(a.key, a.expiresAt))
  }

  /** Unexpired recordable admissions are held, and none was followed by a second one before it expired. */
  ghost predicate Remembers(h: History, clock: int)
  {
    && (forall i :: 0 <= i < |h.acks| && Durably(h.acks[i]) && h.acks[i].expiresAt > clock ==>
            h.acks[i].key in h.store.held && h.store.held[h.acks[i].key] == h.acks[i].expiresAt)
    && (forall i, j :: 0 <= i < j < |h.acks| && h.acks[i].key == h.acks[j].key && Durably(h.acks[i]) ==>
            h.acks[i].expiresAt <= h.acks[j].at)
  }

  lemma LastLineAppend(log: seq<Entry>, e: Entry, key: string)
    ensures LastLine(log + [e], key) == if e.key == key then Some(e.expiresAt) else LastLine(log, key)
  {
    assert (log + [e])[..|log|] == log;
  }

  lemma {:induction false} LoadLogAppend(log: seq<Entry>, e: Entry, now: int, acc: map<string, int>)
    ensures LoadLog(log + [e], now, acc)
      == var m := LoadLog(log, now, acc);
         if Recordable(e) && e.expiresAt > now then m[e.key := e.expiresAt] else m
  {
    if log == [] {
      assert log + [e] == [e];
    } else {
      assert (log + [e])[1..] == log[1..] + [e];
      LoadLogAppend(log[1..], e, now,
        if Recordable(log[0]) && log[0].expiresAt > now then acc[log[0].key := log[0].expiresAt] else acc);
    }
  }

  /** A key is loaded with the expiry of its last line, when that line is recordable and unexpired. */
  lemma {:induction false} LoadLastLine(log: seq<Entry>, now: int, key: string)
    requires LastLine(log, key).Some?
    requires var e := Entry(key, LastLine(log, key).value); Recordable(e) && e.expiresAt > now
    ensures key in LoadLog(log, now, map[]) && LoadLog(log, now, map[])[key] == LastLine(log, key).value
  {
    var n := |log| - 1;
    assert log == log[..n] + [log[n]];
    LoadLogAppend(log[..n], log[n], now, map[]);
    if log[n].key != key {
      LoadLastLine(log[..n], now, key);
    }
  }

  lemma {:induction false} LastLineOfEntries(m: map<string, int>, order: seq<string>, key: string)
    requires forall k :: k in order ==> k in m
    ensures LastLine(EntriesOf(m, order), key) == if key in order then Some(m[key]) else None
  {
    if order != [] {
      var n := |order| - 1;
      assert order == order[..n] + [order[n]];
      EntriesOfAppend(m, order[..n], order[n]);
      LastLineOfEntries(m, order[..n], key);
      LastLineAppend(EntriesOf(m, order[..n]), Entry(order[n], m[order[n]]), key);
    }
  }

  lemma StepKeepsFile(max: int, d: Durable, key: string, expiresAt: int, now: int, write: Write)
    requires StoreInvariant(d)
    ensures StoreInvariant(AdmitDurable(d, max, true, key, expiresAt, now, write).1)
  {
    var d' := AdmitDurable(d, max, true, key, expiresAt, now, write).1;
    var e := Entry(key, expiresAt);
    forall k | k in d'.held
      ensures LastLine(d'.log, k) == Some(d'.held[k])
    {
      LastLineAppend(d.log, e, k);
    }
  }

  /** A store opened on any file starts in its invariant, because opening rewrites the file. */
  lemma OpenedKeepsFile(loaded: map<string, int>, order: seq<string>)
    requires ListsKeys(order, loaded.Keys)
    ensures StoreInvariant(Durable(loaded, EntriesOf(loaded, order)))
  {
    forall k | k in loaded
      ensures LastLine(EntriesOf(loaded, order), k) == Some(loaded[k])
    {
      LastLineOfEntries(loaded, order, k);
    }
  }

  lemma RestartKeepsFile(d: Durable, now: int, order: seq<string>)
    requires ListsKeys(order, Reloaded(d, now).Keys)
    ensures StoreInvariant(Restart(d, now, order))
  {
    OpenedKeepsFile(Reloaded(d, now), order);
  }

  /** A yes means that no unexpired admission of the key is held; a no forgets nothing that is unexpired. */
  lemma AdmitAnswer(d: Durable, max: int, key: string, expiresAt: int, now: int, write: Write)
    ensures var (ok, d') := AdmitDurable(d, max, true, key, expiresAt, now, write);
      && (ok ==> (key in d.held ==> d.held[key] <= now) && key in d'.held && d'.held[key] == expiresAt)
      && (forall k :: k in d.held && d.held[k] > now && (ok ==> k != key) ==>
              k in d'.held && d'.held[k] == d.held[k])
  {
  }

  lemma AdmitRemembers(max: int, h: History, key: string, expiresAt: int, now: int, write: Write)
    requires Remembers(h, now)
    ensures Remembers(StoreStep(max, h, Admit(key, expiresAt, now, write)), now)
  {
    AdmitAnswer(h.store, max, key, expiresAt, now, write);
  }

  lemma RestartRemembers(max: int, h: History, now: int, order: seq<string>)
    requires StoreInvariant(h.store) && Remembers(h, now)
    ensures StoreInvariant(StoreStep(max, h, Restarted(now, order)).store)
    ensures Remembers(StoreStep(max, h, Restarted(now, order)), now)
  {
    if ListsKeys(order, Reloaded(h.store, now).Keys) {
      RestartKeepsFile(h.store, now, order);
      forall i | 0 <= i < |h.acks| && Durably(h.acks[i]) && h.acks[i].expiresAt > now
        ensures h.acks[i].key in Reloaded(h.store, now)
        ensures Reloaded(h.store, now)[h.acks[i].key] == h.acks[i].expiresAt
      {
        LoadLastLine(h.store.log, now, h.acks[i].key);
      }
    }
  }

  lemma RemembersLater(h: History, clock: int, later: int)
    requires Remembers(h, clock) && clock <= later
    ensures Remembers(h, later)
  {
  }

  lemma {:induction false} RunInvariant(max: int, start: Durable, events: seq<StoreEvent>, clock: int)
    requires StoreInvariant(start)
    requires MonotoneEvents(events) && (events != [] ==> events[|events| - 1].now <= clock)
    ensures StoreInvariant(StoreRun(max, start, events).store) && Remembers(StoreRun(max, start, events), clock)
  {
    if events != [] {
      var n := |events| - 1;
      var h0, e := StoreRun(max, start, events[..n]), events[n];
      RunInvariant(max, start, events[..n], e.now);
      match e {
        case Admit(key, expiresAt, now, write) =>
          StepKeepsFile(max, h0.store, key, expiresAt, now, write);
          AdmitRemembers(max, h0, key, expiresAt, now, write);
        case Restarted(now, order) =>
          RestartRemembers(max, h0, now, order);
      }
      RemembersLater(StoreRun(max, start, events), e.now, clock);
    }
  }

  /**
   Through any admissions, failed writes, crashes and restarts, a key admitted with an expiry of at most fifteen
   digits is admitted again only once that expiry has passed.
   */
  lemma DurableAtMostOnce(max: int, start: Durable, events: seq<StoreEvent>, i: nat, j: nat)
    requires StoreInvariant(start) && MonotoneEvents(events)
    requires i < j < |StoreRun(max, start, events).acks|
    requires StoreRun(max, start, events).acks[i].key == StoreRun(max, start, events).acks[j].key
    requires Durably(StoreRun(max, start, events).acks[i])
    ensures StoreRun(max, start, events).acks[i].expiresAt <= StoreRun(max, start, events).acks[j].at
  {
    RunInvariant(max, start, events, if events == [] then 0 else events[|events| - 1].now);
  }

  /** After a crash at any point, the reloaded store refuses every admitted key that is still unexpired. */
  lemma RestartRefusesAdmitted(
    max: int, start: Durable, events: seq<StoreEvent>, i: nat, now: int, order: seq<string>, expiresAt: int,
    write: Write)
    requires StoreInvariant(start)
    requires MonotoneEvents(events + [Restarted(now, order)])
    requires ListsKeys(order, Reloaded(StoreRun(max, start, events).store, now).Keys)
    requires i < |StoreRun(max, start, events).acks| && Durably(StoreRun(max, start, events).acks[i])
    requires StoreRun(max, start, events).acks[i].expiresAt > now
    ensures var restarted := Restart(StoreRun(max, start, events).store, now, order);
      !AdmitDurable(restarted, max, true, StoreRun(max, start, events).acks[i].key, expiresAt, now, write).0
  {
    var all := events + [Restarted(now, order)];
    assert all[..|events|] == events && all[|events|] == Restarted(now, order);
    RunInvariant(max, start, all, now);
    var h := StoreRun(max, start, events);
    assert StoreRun(max, start, all) == History(Restart(h.store, now, order), h.acks);
  }

  // ---- What a file gives back ----

  /** Line `i` is for this key, is read back, and has not expired. */
  predicate LiveLine(log: seq<Entry>, i: int, now: int, key: string)
  {
    0 <= i < |log| && log[i].key == key && Recordable(log[i]) && log[i].expiresAt > now
  }

  /** And it is the last such line. */
  ghost predicate LastLiveLine(log: seq<Entry>, i: int, now: int, key: string)
  {
    LiveLine(log, i, now, key) && forall j :: i < j < |log| ==> !LiveLine(log, j, now, key)
  }

  /** The last such line has this expiry. */
  ghost predicate Gives(log: seq<Entry>, now: int, key: string, expiresAt: int)
  {
    exists i :: LastLiveLine(log, i, now, key) && log[i].expiresAt == expiresAt
  }

  lemma LiveLineAppend(before: seq<Entry>, last: Entry, i: int, now: int, key: string)
    ensures LiveLine(before + [last], i, now, key) <==>
      LiveLine(before, i, now, key) || (i == |before| && LiveLine([last], 0, now, key))
  {
    hide Recordable;
  }

  lemma LastLiveLineAppend(before: seq<Entry>, last: Entry, i: int, now: int, key: string)
    ensures LiveLine([last], 0, now, key) ==> LastLiveLine(before + [last], |before|, now, key)
    ensures !LiveLine([last], 0, now, key) && LastLiveLine(before, i, now, key) ==>
      LastLiveLine(before + [last], i, now, key)
  {
    forall j
      ensures LiveLine(before + [last], j, now, key) <==>
        LiveLine(before, j, now, key) || (j == |before| && LiveLine([last], 0, now, key))
    {
      LiveLineAppend(before, last, j, now, key);
    }
    hide Recordable;
  }

  /**
   A key is loaded exactly when some line for it is readable and unexpired, and with the expiry of the last such line.
   */
  lemma {:induction false} LoadedExactly(log: seq<Entry>, now: int, key: string)
    ensures var m := LoadLog(log, now, map[]);
      && (key in m <==> exists i :: LiveLine(log, i, now, key))
      && (key in m ==> Gives(log, now, key, m[key]))
  {
    if log != [] {
      var n := |log| - 1;
      var before, last := log[..n], log[n];
      LoadedExactly(before, now, key);
      LoadLogAppend(before, last, now, map[]);
      assert log == before + [last];
      LoadedStep(before, last, LoadLog(before, now, map[]), LoadLog(log, now, map[]), now, key);
    }
  }

  lemma LoadedStep(before: seq<Entry>, last: Entry, m: map<string, int>, m': map<string, int>, now: int, key: string)
    requires m' == if Recordable(last) && last.expiresAt > now then m[last.key := last.expiresAt] else m
    requires key in m <==> exists i :: LiveLine(before, i, now, key)
    requires key in m ==> Gives(before, now, key, m[key])
    ensures key in m' <==> exists i :: LiveLine(before + [last], i, now, key)
    ensures key in m' ==> Gives(before + [last], now, key, m'[key])
  {
    hide Recordable, LastLiveLine, Gives;
    var log := before + [last];
    forall i
      ensures LiveLine(log, i, now, key) <==>
        LiveLine(before, i, now, key) || (i == |before| && LiveLine([last], 0, now, key))
    {
      LiveLineAppend(before, last, i, now, key);
    }
    if LiveLine([last], 0, now, key) {
      assert LiveLine(log, |before|, now, key);
      LastGives(before, last, now, key);
    } else if key in m {
      EarlierGives(before, last, now, key, m[key]);
    }
  }

  lemma LastGives(before: seq<Entry>, last: Entry, now: int, key: string)
    requires LiveLine([last], 0, now, key)
    ensures Gives(before + [last], now, key, last.expiresAt)
  {
    LastLiveLineAppend(before, last, 0, now, key);
    hide LastLiveLine, Recordable;
    assert (before + [last])[|before|] == last;
  }

  lemma EarlierGives(before: seq<Entry>, last: Entry, now: int, key: string, expiresAt: int)
    requires !LiveLine([last], 0, now, key) && Gives(before, now, key, expiresAt)
    ensures Gives(before + [last], now, key, expiresAt)
  {
    hide Recordable;
    var i :| LastLiveLine(before, i, now, key) && before[i].expiresAt == expiresAt;
    LastLiveLineAppend(before, last, i, now, key);
    assert (before + [last])[i] == before[i];
  }

  /** The text of any log loads, and gives a key exactly the expiry of its last readable, unexpired line. */
  lemma LoadFileExactly(log: seq<Entry>, now: int, key: string)
    ensures Load(FileOf(log), now).Some?
    ensures var m := Load(FileOf(log), now).value;
      && (key in m <==> exists i :: LiveLine(log, i, now, key))
      && (key in m ==> Gives(log, now, key, m[key]))
  {
    hide Load, FileOf, LoadLog;
    LoadFile(log, now);
    LoadedExactly(log, now, key);
  }

  lemma {:induction false} EntriesAt(m: map<string, int>, order: seq<string>, i: nat)
    requires i < |order| && forall k :: k in order ==> k in m
    ensures |EntriesOf(m, order)| == |order| && EntriesOf(m, order)[i] == Entry(order[i], m[order[i]])
  {
    if |order| > 1 {
      EntriesAt(m, order[1..], if i == 0 then 0 else i - 1);
    }
  }

  lemma {:induction false} EntriesSize(m: map<string, int>, order: seq<string>)
    requires forall k :: k in order ==> k in m
    ensures |EntriesOf(m, order)| == |order|
  {
    if order != [] {
      EntriesAt(m, order, 0);
    }
  }

  /** A line of compacted text is for the key at its place, with the expiry of that key. */
  lemma CompactedLine(m: map<string, int>, order: seq<string>, now: int, key: string, i: int)
    requires forall k :: k in order ==> k in m
    ensures LiveLine(EntriesOf(m, order), i, now, key) <==>
      0 <= i < |order| && order[i] == key && m[key] > now && Recordable(Entry(key, m[key]))
    ensures LiveLine(EntriesOf(m, order), i, now, key) ==> EntriesOf(m, order)[i].expiresAt == m[key]
  {
    hide Recordable, EntriesOf;
    EntriesSize(m, order);
    if 0 <= i < |order| {
      EntriesAt(m, order, i);
    }
  }

  lemma CompactedKey(m: map<string, int>, order: seq<string>, now: int, key: string)
    requires ListsKeys(order, m.Keys)
    ensures var loaded := LoadLog(EntriesOf(m, order), now, map[]);
      && (key in loaded <==> key in m && m[key] > now && Recordable(Entry(key, m[key])))
      && (key in loaded ==> loaded[key] == m[key])
  {
    hide Recordable, LoadLog, EntriesOf, LiveLine, Gives;
    var log := EntriesOf(m, order);
    LoadedExactly(log, now, key);
    forall i
      ensures LiveLine(log, i, now, key) <==>
        0 <= i < |order| && order[i] == key && m[key] > now && Recordable(Entry(key, m[key]))
    {
      CompactedLine(m, order, now, key, i);
    }
    if key in m {
      var i :| 0 <= i < |order| && order[i] == key;
      CompactedLine(m, order, now, key, i);
    }
    if key in LoadLog(log, now, map[]) {
      GivenExpiry(m, order, now, key, LoadLog(log, now, map[])[key]);
    }
  }

  lemma GivenExpiry(m: map<string, int>, order: seq<string>, now: int, key: string, expiresAt: int)
    requires ListsKeys(order, m.Keys) && key in m && Gives(EntriesOf(m, order), now, key, expiresAt)
    ensures expiresAt == m[key]
  {
    hide Recordable, EntriesOf;
    var log := EntriesOf(m, order);
    var i :| LastLiveLine(log, i, now, key) && log[i].expiresAt == expiresAt;
    CompactedLine(m, order, now, key, i);
  }

  /** The round trip of the file: what was compacted is loaded again, less what has expired or cannot be read. */
  lemma CompactRoundTrip(m: map<string, int>, order: seq<string>, now: int)
    requires ListsKeys(order, m.Keys)
    ensures Load(FileOf(EntriesOf(m, order)), now)
         == Some(map k | k in m && m[k] > now && Recordable(Entry(k, m[k])) :: m[k])
  {
    LoadFile(EntriesOf(m, order), now);
    hide LoadLog, EntriesOf, Recordable, Load, FileOf;
    var loaded := LoadLog(EntriesOf(m, order), now, map[]);
    var expected := map k | k in m && m[k] > now && Recordable(Entry(k, m[k])) :: m[k];
    forall key
      ensures key in loaded <==> key in expected
      ensures key in loaded ==> loaded[key] == expected[key]
    {
      CompactedKey(m, order, now, key);
    }
    assert loaded == expected;
  }

  /** For keys that are not empty and expiries of at most fifteen digits, exactly the unexpired entries come back. */
  lemma CompactKeepsLive(m: map<string, int>, order: seq<string>, now: int)
    requires ListsKeys(order, m.Keys)
    requires forall k :: k in m ==> k != "" && 0 <= m[k] < Pow10(15)
    ensures Load(FileOf(EntriesOf(m, order)), now) == Some(Live(m, now))
  {
    hide Load, FileOf, EntriesOf, Pow10;
    CompactRoundTrip(m, order, now);
    assert (map k | k in m && m[k] > now && Recordable(Entry(k, m[k])) :: m[k]) == Live(m, now);
  }

  /**
   What fifteen digits buy. A held key survives a restart exactly when some line for it is readable and unexpired, and
   with its own expiry when that is recordable. Without older lines for the key, exactly when its expiry is recordable.
   */
  lemma SurvivesRestartExactly(d: Durable, now: int, key: string)
    requires StoreInvariant(d) && key in d.held && d.held[key] > now
    ensures key in Reloaded(d, now) <==> exists i :: LiveLine(d.log, i, now, key)
    ensures Recordable(Entry(key, d.held[key])) ==> key in Reloaded(d, now) && Reloaded(d, now)[key] == d.held[key]
    ensures (forall i, j :: 0 <= i < j < |d.log| ==> d.log[i].key != key || d.log[j].key != key) ==>
      (key in Reloaded(d, now) <==> key != "" && 0 <= d.held[key] < Pow10(15))
  {
    LoadedExactly(d.log, now, key);
    var e := Entry(key, d.held[key]);
    if Recordable(e) {
      LoadLastLine(d.log, now, key);
    } else if key in Reloaded(d, now)
      && forall i, j :: 0 <= i < j < |d.log| ==> d.log[i].key != key || d.log[j].key != key {
      var i :| LiveLine(d.log, i, now, key);
      LastLineOnly(d.log, i);
    }
  }

  lemma {:induction false} LastLineOnly(log: seq<Entry>, i: nat)
    requires i < |log| && forall j :: 0 <= j < |log| && j != i ==> log[j].key != log[i].key
    ensures LastLine(log, log[i].key) == Some(log[i].expiresAt)
  {
    var n := |log| - 1;
    if i < n {
      LastLineOnly(log[..n], i);
    }
  }
}
