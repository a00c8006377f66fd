/**
 The replay stores: a sweeping in-memory map, the same map behind an append-only file, and the client's guard.
 The functions say what each call does; the classes do it step by step.
 */
module ReplayStore {
  import opened Wrappers
  import opened Unicode
  import opened Decimal
  import opened ReplayFile
  import UriComponent

  const MAX_LINE_BYTES := 256

  /** The entries whose expiry is after `now`. */
  function Live(m: map<string, int>, now: int): map<string, int>
  {
    map k | k in m && m[k] > now :: m[k]
  }

  predicate KeyOk(key: string)
  {
    1 <= Length(key) <= 128
  }

  datatype Admission = Admission(ok: bool, held: map<string, int>)

  /** The guard's `admit`: sweep, then refuse a held key or a full map. */
  function AdmitKey(m: map<string, int>, max: int, key: string, expiresAt: int, now: int): Admission
  {
    var live := Live(m, now);
    if key in live || |live| >= max then Admission(false, live)
    else Admission(true, live[key := expiresAt])
  }

  /** `admitInto`: the same behind a check of the key, which leaves even expired entries alone. */
  function AdmitInto(m: map<string, int>, max: int, key: string, expiresAt: int, now: int): Admission
  {
    if KeyOk(key) then AdmitKey(m, max, key, expiresAt, now) else Admission(false, m)
  }

  // ---- The durable store on values ----

  /** How a write to the log can end: flushed, or failed with the line not written or written. */
  datatype Write = Flushed | FailedBefore | FailedAfter

  /** What a process holds and what its file holds. */
  datatype Durable = Durable(held: map<string, int>, log: seq<Entry>)

  function AdmitDurable(
    d: Durable, max: int, open: bool, key: string, expiresAt: int, now: int, write: Write): (r: (bool, Durable))
  {
    var a := AdmitInto(d.held, max, key, expiresAt, now);
    var e := Entry(key, expiresAt);
    if !a.ok then (false, d.(held := a.held))
    else if ByteLength(Line(e)) > MAX_LINE_BYTES || !open then (false, d.(held := a.held - {key}))
    else
      match write
      case Flushed => (true, Durable(a.held, d.log + [e]))
      case FailedBefore => (false, d.(held := a.held - {key}))
      case FailedAfter => (false, Durable(a.held - {key}, d.log + [e]))
  }

  /** `order` lists every key of the map once; a JavaScript Map lists them as they were inserted. */
  ghost predicate ListsKeys(order: seq<string>, keys: set<string>)
  {
    && (forall k :: k in order <==> k in keys)
    && (forall i, j :: 0 <= i < j < |order| ==> order[i] != order[j])
  }

  function EntriesOf(m: map<string, int>, order: seq<string>): seq<Entry>
    requires forall k :: k in order ==> k in m
  {
    if order == [] then [] else [Entry(order[0], m[order[0]])] + EntriesOf(m, order[1..])
  }

  function Reloaded(d: Durable, now: int): map<string, int>
  {
    LoadLog(d.log, now, map[])
  }

  /** A restart: load the file, write back what is unexpired, and go on. */
  function Restart(d: Durable, now: int, order: seq<string>): Durable
    requires forall k :: k in order ==> k in Reloaded(d, now)
  {
    Durable(Reloaded(d, now), EntriesOf(Reloaded(d, now), order))
  }

  // ---- The stores as they run ----

  /** The `Map` a store keeps, emptied of expired entries in place. */
  class EntryMap {
    var entries: map<string, int>

    constructor (entries: map<string, int>)
      ensures this.entries == entries
    {
      this.entries := entries;
    }

    method Sweep(now: int)
      modifies this
      ensures entries == Live(old(entries), now)
    {
      var pending := entries.Keys;
      while pending != {}
        invariant pending <= entries.Keys
        invariant entries == map k | k in old(entries) && (k in pending || old(entries)[k] > now) :: old(entries)[k]
        decreases pending
      {
        var recorded :| recorded in pending;
        if entries[recorded] <= now {
          entries := entries - {recorded};
        }
        pending := pending - {recorded};
      }
    }

    method Admit(maxEntries: int, key: string, expiresAt: int, now: int) returns (ok: bool)
      modifies this
      ensures Admission(ok, entries) == AdmitInto(old(entries), maxEntries, key, expiresAt, now)
    {
      if !KeyOk(key) {
        return false;
      }
      Sweep(now);
      if key in entries {
        return false;
      }
      if |entries| >= maxEntries {
        return false;
      }
      entries := entries[key := expiresAt];
      ok := true;
    }
  }

  class MemoryReplayStore {
    const admitted: EntryMap
    const maxEntries: int

    constructor (maxEntries: int)
      ensures this.maxEntries == maxEntries && fresh(admitted) && admitted.entries == map[]
    {
      admitted := new EntryMap(map[]);
      this.maxEntries := maxEntries;
    }

    method Admit(key: string, expiresAt: int, now: int) returns (ok: bool)
      modifies admitted
      ensures Admission(ok, admitted.entries) == AdmitInto(old(admitted.entries), maxEntries, key, expiresAt, now)
    {
      ok := admitted.Admit(maxEntries, key, expiresAt, now);
    }

    method Close()
      modifies admitted
      ensures admitted.entries == map[]
    {
      admitted.entries := map[];
    }
  }

  /** The client's replay guard, which does not look at the identifier before sweeping. */
  class ReplayGuard {
    const admitted: EntryMap
    const maxEntries: int

    constructor (maxEntries: int)
      ensures this.maxEntries == maxEntries && fresh(admitted) && admitted.entries == map[]
    {
      admitted := new EntryMap(map[]);
      this.maxEntries := maxEntries;
    }

    method Admit(attestationId: string, expiresAt: int, now: int) returns (ok: bool)
      modifies admitted
      ensures Admission(ok, admitted.entries)
           == AdmitKey(old(admitted.entries), maxEntries, attestationId, expiresAt, now)
    {
      admitted.Sweep(now);
      if attestationId in admitted.entries {
        return false;
      }
      if |admitted.entries| >= maxEntries {
        return false;
      }
      admitted.entries := admitted.entries[attestationId := expiresAt];
      ok := true;
    }
  }

  /** The text `compact` writes: every entry once, in the order it happens to list the map. */
  method Compact(admitted: map<string, int>) returns (text: string)
    ensures exists order :: ListsKeys(order, admitted.Keys) && text == FileOf(EntriesOf(admitted, order))
  {
    text := "";
    ghost var order: seq<string> := [];
    var pending := admitted.Keys;
    while pending != {}
      invariant pending <= admitted.Keys
      invariant ListsKeys(order, admitted.Keys - pending)
      invariant text == FileOf(EntriesOf(admitted, order))
      decreases pending
    {
      var key :| key in pending;
      EntriesOfAppend(admitted, order, key);
      FileOfAppend(EntriesOf(admitted, order), Entry(key, admitted[key]));
      text := text + Line(Entry(key, admitted[key]));
      order := order + [key];
      pending := pending - {key};
    }
    assert ListsKeys(order, admitted.Keys);
  }

  lemma {:induction false} EntriesOfAppend(m: map<string, int>, order: seq<string>, key: string)
    requires key in m && forall k :: k in order ==> k in m
    ensures EntriesOf(m, order + [key]) == EntriesOf(m, order) + [Entry(key, m[key])]
  {
    if order == [] {
      assert order + [key] == [key];
    } else {
      assert (order + [key])[1..] == order[1..] + [key];
      EntriesOfAppend(m, order[1..], key);
    }
  }

  class DurableReplayStore {
    const admitted: EntryMap
    const maxEntries: int
    /** The bytes on disk. */
    var file: string
    /** Whether the descriptor is still open. */
    var open: bool
    ghost var log: seq<Entry>

    ghost predicate Valid()
      reads this
    {
      file == FileOf(log)
    }

    ghost function State(): Durable
      reads this, admitted
    {
      Durable(admitted.entries, log)
    }

    constructor (loaded: map<string, int>, maxEntries: int)
      ensures Valid() && open && fresh(admitted) && this.maxEntries == maxEntries
      ensures admitted.entries == loaded
      ensures exists order :: ListsKeys(order, loaded.Keys) && log == EntriesOf(loaded, order)
    {
      var text := Compact(loaded);
      ghost var order :| ListsKeys(order, loaded.Keys) && text == FileOf(EntriesOf(loaded, order));
      this.admitted := new EntryMap(loaded);
      this.maxEntries := maxEntries;
      this.file := text;
      this.log := EntriesOf(loaded, order);
      this.open := true;
    }

    method Admit(key: string, expiresAt: int, at: int, write: Write) returns (ok: bool)
      requires Valid()
      modifies this`file, this`log, admitted
      ensures Valid()
      ensures (ok, State()) == AdmitDurable(old(State()), maxEntries, open, key, expiresAt, at, write)
    {
      ok := admitted.Admit(maxEntries, key, expiresAt, at);
      if !ok {
        return;
      }
      var line := Line(Entry(key, expiresAt));
      if ByteLength(line) > MAX_LINE_BYTES || !open {
        admitted.entries := admitted.entries - {key};
        return false;
      }
      if write != FailedBefore {
        FileOfAppend(log, Entry(key, expiresAt));
        file := file + line;
        log := log + [Entry(key, expiresAt)];
      }
      if write != Flushed {
        admitted.entries := admitted.entries - {key};
        ok := false;
      }
    }

    method Close()
      modifies this`open
      ensures !open
    {
      open := false;
    }
  }

  /** `createDurableReplayStore` on whatever the path holds; None where a stored key does not decode. */
  method OpenDurable(content: Option<string>, maxEntries: int, now: int) returns (r: Option<DurableReplayStore>)
    ensures r.Some? ==> fresh(r.value) && fresh(r.value.admitted) && r.value.Valid() && r.value.open
    ensures r.Some? ==> r.value.maxEntries == maxEntries
    ensures content.None? ==> r.Some? && r.value.State() == Durable(map[], [])
    ensures content.Some? && Load(content.value, now).None? ==> r.None?
    ensures content.Some? && Load(content.value, now).Some? ==>
      r.Some? && r.value.admitted.entries == Load(content.value, now).value
    ensures r.Some? ==> exists order ::
      ListsKeys(order, r.value.admitted.entries.Keys) && r.value.log == EntriesOf(r.value.admitted.entries, order)
  {
    var loaded := LoadEntries(content, now);
    if loaded.None? {
      return None;
    }
    var store := new DurableReplayStore(loaded.value, maxEntries);
    assert loaded.value == map[] ==> store.log == [] by {
      var order :| ListsKeys(order, loaded.value.Keys) && store.log == EntriesOf(loaded.value, order);
      if loaded.value == map[] && order != [] {
        assert order[0] in order;
      }
    }
    r := Some(store);
  }

  /** Opening the file a store left behind is a restart of that store. */
  method Reopen(store: DurableReplayStore, now: int) returns (r: DurableReplayStore)
    requires store.Valid()
    ensures fresh(r) && fresh(r.admitted) && r.Valid() && r.open && r.maxEntries == store.maxEntries
    ensures exists order ::
      ListsKeys(order, Reloaded(store.State(), now).Keys) && r.State() == Restart(store.State(), now, order)
  {
    LoadFile(store.log, now);
    var again := OpenDurable(Some(store.file), store.maxEntries, now);
    r := again.value;
    ghost var order :| ListsKeys(order, r.admitted.entries.Keys) && r.log == EntriesOf(r.admitted.entries, order);
    assert r.State() == Restart(store.State(), now, order);
  }
}
