/** The browser's store of idempotency keys: one record for each operation, until the operation is completed. */
module OperationKeys {
  import opened Wrappers
  import opened JsonText
  import opened JsonRoundTrip
  import opened Validation
  import UriComponent

  const WORKFLOW_KEY := "page2webmcp.workflow.v1"
  const OPERATION_PREFIX := "page2webmcp.operation.v1."

  // ---- Web storage: an ordered list of items ----

  type Items = seq<(string, string)>

  ghost predicate DistinctKeys(items: Items)
  {
    forall i, j :: 0 <= i < j < |items| ==> items[i].0 != items[j].0
  }

  function Get(items: Items, k: string): Option<string>
  {
    if items == [] then None
    else if items[0].0 == k then Some(items[0].1)
    else Get(items[1..], k)
  }

  /** A new key goes last, a known one keeps its place. */
  function Put(items: Items, k: string, v: string): Items
  {
    if items == [] then [(k, v)]
    else if items[0].0 == k then [(k, v)] + items[1..]
    else [items[0]] + Put(items[1..], k, v)
  }

  function Drop(items: Items, k: string): Items
  {
    if items == [] then []
    else if items[0].0 == k then Drop(items[1..], k)
    else [items[0]] + Drop(items[1..], k)
  }

  class Storage {
    var items: Items

    ghost predicate Valid()
      reads this
    {
      DistinctKeys(items)
    }

    constructor ()
      ensures Valid() && items == []
    {
      items := [];
    }

    /** `key(index)` for an index in range. */
    function Key(index: nat): string
      reads this
      requires index < |items|
    {
      items[index].0
    }

    method GetItem(k: string) returns (r: Option<string>)
      ensures r == Get(items, k)
    {
      for i := 0 to |items|
        invariant Get(items, k) == Get(items[i..], k)
      {
        if items[i].0 == k { return Some(items[i].1); }
        assert items[i..][1..] == items[i + 1..];
      }
      r := None;
    }

    method SetItem(k: string, v: string)
      requires Valid()
      modifies this
      ensures Valid() && items == Put(old(items), k, v)
    {
      PutKeys(items, k, v);
      items := Put(items, k, v);
    }

    method RemoveItem(k: string)
      requires Valid()
      modifies this
      ensures Valid() && items == Drop(old(items), k)
    {
      DropKeys(items, k);
      items := Drop(items, k);
    }
  }

  ghost predicate HasKey(items: Items, k: string)
  {
    exists i :: 0 <= i < |items| && items[i].0 == k
  }

  lemma {:induction false} PutKeys(items: Items, k: string, v: string)
    ensures forall o :: HasKey(Put(items, k, v), o) ==> o == k || HasKey(items, o)
    ensures DistinctKeys(items) ==> DistinctKeys(Put(items, k, v))
  {
    if items != [] && items[0].0 != k {
      var rest, put := items[1..], Put(items[1..], k, v);
      PutKeys(rest, k, v);
      assert items == [items[0]] + rest;
      forall o | HasKey([items[0]] + put, o)
        ensures o == k || HasKey(items, o)
      {
        var i :| 0 <= i < |[items[0]] + put| && ([items[0]] + put)[i].0 == o;
        if i > 0 {
          assert put[i - 1].0 == o;
          assert HasKey(put, o);
          if o != k {
            var j :| 0 <= j < |rest| && rest[j].0 == o;
            assert items[j + 1].0 == o;
          }
        } else {
          assert items[0].0 == o;
        }
      }
      if DistinctKeys(items) {
        forall i | 0 <= i < |put|
          ensures put[i].0 != items[0].0
        {
          assert HasKey(put, put[i].0);
          if put[i].0 != k {
            var j :| 0 <= j < |rest| && rest[j].0 == put[i].0;
            assert items[j + 1] == rest[j];
          }
        }
      }
    }
  }

  lemma {:induction false} DropKeys(items: Items, k: string)
    ensures forall i :: 0 <= i < |Drop(items, k)| ==> Drop(items, k)[i] in items && Drop(items, k)[i].0 != k
    ensures DistinctKeys(items) ==> DistinctKeys(Drop(items, k))
  {
    if items != [] {
      var rest, less := items[1..], Drop(items[1..], k);
      DropKeys(rest, k);
      assert items == [items[0]] + rest;
      if DistinctKeys(items) && items[0].0 != k {
        forall i | 0 <= i < |less|
          ensures less[i].0 != items[0].0
        {
          var j :| 0 <= j < |rest| && rest[j] == less[i];
          assert items[j + 1] == rest[j];
        }
      }
    }
  }

  lemma {:induction false} GetPut(items: Items, k: string, v: string, o: string)
    ensures Get(Put(items, k, v), o) == if o == k then Some(v) else Get(items, o)
  {
    if items != [] && items[0].0 != k {
      GetPut(items[1..], k, v, o);
    }
  }

  lemma {:induction false} GetDrop(items: Items, k: string, o: string)
    ensures Get(Drop(items, k), o) == if o == k then None else Get(items, o)
  {
    if items != [] {
      GetDrop(items[1..], k, o);
    }
  }

  // ---- Records of operations ----

  function StorageKey(operation: string): string
  {
    OPERATION_PREFIX + UriComponent.Encode(operation)
  }

  /** `JSON.stringify({ requestBody, key })`. */
  function RecordText(requestBody: string, key: string): string
  {
    "{" + (Quote("requestBody") + (":" + (Canonical(Str(requestBody))
    + ("," + (Quote("key") + (":" + (Canonical(Str(key)) + "}")))))))
  }

  /**
   `JSON.parse` of a stored text, None where it throws. Any text can be stored, so it may hold numbers the model's
   values cannot; a reader has some other value in their place, which is no string and so equals no body and no key.
   */
  type Reader = string -> Option<Json>

  ghost predicate ReadsJson(json: Reader)
  {
    forall text :: Parse(text).Some? ==> json(text) == Parse(text)
  }

  /** What a record says: a request body, which need not be one, and a key that is not empty. */
  function Recorded(json: Reader, items: Items, operation: string): Option<(Json, string)>
  {
    match Get(items, StorageKey(operation))
    case None => None
    case Some(raw) =>
      match json(raw)
      case Some(Obj(f)) =>
        if "key" in f && f["key"].Str? && f["key"].s != "" && "requestBody" in f then
          Some((f["requestBody"], f["key"].s))
        else None
      case _ => None
  }

  /** The key an operation gets for a request body. */
  function Answer(json: Reader, items: Items, operation: string, requestBody: string, created: string): string
  {
    match Recorded(json, items, operation)
    case Some((body, key)) => if body == Str(requestBody) then key else created
    case None => created
  }

  function Asked(json: Reader, items: Items, operation: string, requestBody: string, created: string): Items
  {
    match Recorded(json, items, operation)
    case Some((body, _)) =>
      if body == Str(requestBody) then items else Put(items, StorageKey(operation), RecordText(requestBody, created))
    case None => Put(items, StorageKey(operation), RecordText(requestBody, created))
  }

  method OperationKey(json: Reader, storage: Storage, operation: string, requestBody: string, created: string)
    returns (key: string)
    requires storage.Valid()
    modifies storage
    ensures storage.Valid()
    ensures key == Answer(json, old(storage.items), operation, requestBody, created)
    ensures storage.items == Asked(json, old(storage.items), operation, requestBody, created)
  {
    hide Parse, StorageKey, RecordText, Put, Get;
    var storageKey := StorageKey(operation);
    var raw := storage.GetItem(storageKey);
    if raw.Some? {
      match json(raw.value) {
        case Some(Obj(f)) =>
          if "requestBody" in f && f["requestBody"] == Str(requestBody) && "key" in f && f["key"].Str?
            && |f["key"].s| > 0 {
            return f["key"].s;
          }
        case _ =>
      }
    }
    storage.SetItem(storageKey, RecordText(requestBody, created));
    key := created;
  }

  /** A record is removed when it has this key, or cannot be read at all. */
  predicate Completes(json: Reader, items: Items, operation: string, key: string)
  {
    match Get(items, StorageKey(operation))
    case None => false
    case Some(raw) =>
      match json(raw)
      case None => true
      case Some(Obj(f)) => "key" in f && f["key"] == Str(key)
      case Some(_) => false
  }

  function Completed(json: Reader, items: Items, operation: string, key: string): Items
  {
    if Completes(json, items, operation, key) then Drop(items, StorageKey(operation)) else items
  }

  method CompleteOperation(json: Reader, storage: Storage, operation: string, key: string)
    requires storage.Valid()
    modifies storage
    ensures storage.Valid() && storage.items == Completed(json, old(storage.items), operation, key)
  {
    hide Parse, StorageKey, Drop, Get;
    var storageKey := StorageKey(operation);
    var raw := storage.GetItem(storageKey);
    if raw.Some? {
      var current := json(raw.value);
      if current.None?
        || (current.value.Obj? && "key" in current.value.fields && current.value.fields["key"] == Str(key)) {
        storage.RemoveItem(storageKey);
      }
    }
  }

  // ---- Clearing ----

  predicate IsOperation(k: string)
  {
    OPERATION_PREFIX <= k
  }

  /** The items that are no operation records. */
  function Others(items: Items): Items
  {
    if items == [] then []
    else if IsOperation(items[0].0) then Others(items[1..])
    else [items[0]] + Others(items[1..])
  }

  function Cleared(items: Items): Items
  {
    Others(Drop(items, WORKFLOW_KEY))
  }

  lemma {:induction false} DropAbsent(items: Items, k: string)
    requires forall i :: 0 <= i < |items| ==> items[i].0 != k
    ensures Drop(items, k) == items
  {
    if items != [] {
      assert items[0].0 != k && forall i :: 0 <= i < |items| - 1 ==> items[1..][i] == items[i + 1];
      DropAbsent(items[1..], k);
      assert items == [items[0]] + items[1..];
    }
  }

  lemma DropStep(item: (string, string), rest: Items, k: string)
    ensures Drop([item] + rest, k) == if item.0 == k then Drop(rest, k) else [item] + Drop(rest, k)
  {
    assert ([item] + rest)[1..] == rest;
  }

  lemma Regroup(first: (string, string), rest: Items, more: Items)
    ensures ([first] + rest) + more == [first] + (rest + more)
  {
  }

  lemma {:induction false} DropConcat(before: Items, more: Items, k: string)
    ensures Drop(before + more, k) == Drop(before, k) + Drop(more, k)
  {
    hide Drop;
    if before == [] {
      assert before + more == more && Drop(before, k) == [] by { DropNone(k); }
    } else {
      var first, rest := before[0], before[1..];
      assert before == [first] + rest;
      DropConcat(rest, more, k);
      DropStep(first, rest, k);
      DropStep(first, rest + more, k);
      Regroup(first, rest, more);
      Regroup(first, Drop(rest, k), Drop(more, k));
    }
  }

  lemma DropNone(k: string)
    ensures Drop([], k) == []
  {
  }

  /** Removing one item by its key leaves the items around it, in their order. */
  lemma DropAt(before: Items, item: (string, string), after: Items)
    requires forall i :: 0 <= i < |before| ==> before[i].0 != item.0
    requires forall i :: 0 <= i < |after| ==> after[i].0 != item.0
    ensures Drop(before + ([item] + after), item.0) == before + after
  {
    hide Drop;
    DropConcat(before, [item] + after, item.0);
    DropStep(item, after, item.0);
    DropAbsent(before, item.0);
    DropAbsent(after, item.0);
  }

  lemma {:induction false} OthersAmong(items: Items)
    ensures forall x :: x in Others(items) <==> x in items && !IsOperation(x.0)
  {
    if items != [] {
      assert items == [items[0]] + items[1..];
      OthersAmong(items[1..]);
    }
  }

  lemma OtherKeys(all: Items, i: nat, others: Items)
    requires DistinctKeys(all) && i < |all| && others == Others(all[i + 1..])
    ensures forall j :: 0 <= j < |others| ==> others[j].0 != all[i].0
  {
    var later := all[i + 1..];
    OthersAmong(later);
    forall j | 0 <= j < |Others(later)|
      ensures Others(later)[j].0 != all[i].0
    {
      assert Others(later)[j] in later;
      var m :| 0 <= m < |later| && later[m] == Others(later)[j];
      assert all[i + 1 + m] == later[m];
    }
  }

  /** The downward loop: an item removed at an index moves only the items after it, which have been looked at. */
  method ClearClientWorkflow(storage: Storage)
    requires storage.Valid()
    modifies storage
    ensures storage.Valid() && storage.items == Cleared(old(storage.items))
  {
    hide Drop, Others;
    storage.RemoveItem(WORKFLOW_KEY);
    ghost var all := storage.items;
    assert Others(all[|all|..]) == [] by { OthersOfNone(all[|all|..]); }
    assert all == all[..|all|] + [];
    var index := |storage.items| - 1;
    while index >= 0
      invariant -1 <= index < |all|
      invariant storage.Valid() && DistinctKeys(all)
      invariant storage.items == all[..index + 1] + Others(all[index + 1..])
    {
      ghost var later := Others(all[index + 1..]);
      var key := storage.Key(index);
      assert storage.items == all[..index] + ([all[index]] + later);
      OthersStep(all, index);
      if IsOperation(key) {
        OtherKeys(all, index, later);
        DropAt(all[..index], all[index], later);
        storage.RemoveItem(key);
      }
      index := index - 1;
    }
    assert all[0..] == all && all[..0] == [];
  }

  lemma OthersOfNone(items: Items)
    requires items == []
    ensures Others(items) == []
  {
  }

  lemma OthersStep(all: Items, i: nat)
    requires i < |all|
    ensures Others(all[i..]) ==
      if IsOperation(all[i].0) then Others(all[i + 1..]) else [all[i]] + Others(all[i + 1..])
  {
    assert all[i..][0] == all[i] && all[i..][1..] == all[i + 1..];
  }

  /** Clearing removes the workflow and every operation record, and nothing else. */
  lemma ClearedExactly(items: Items, k: string)
    ensures Get(Cleared(items), k) ==
      if k == "page2webmcp.workflow.v1" || "page2webmcp.operation.v1." <= k then None else Get(items, k)
  {
    GetDrop(items, WORKFLOW_KEY, k);
    GetOthers(Drop(items, WORKFLOW_KEY), k);
  }

  lemma {:induction false} GetOthers(items: Items, k: string)
    ensures Get(Others(items), k) == if IsOperation(k) then None else Get(items, k)
  {
    if items != [] {
      GetOthers(items[1..], k);
    }
  }

  // ---- One key until completion ----

  /** Two operations share a record exactly when they are the same operation. */
  lemma StorageKeyInjective(a: string, b: string)
    ensures StorageKey(a) == StorageKey(b) <==> a == b
    ensures StorageKey(a) == "page2webmcp.operation.v1." + UriComponent.Encode(a)
    ensures StorageKey(a) != WORKFLOW_KEY && IsOperation(StorageKey(a))
  {
    var n := |OPERATION_PREFIX|;
    assert StorageKey(a)[n..] == UriComponent.Encode(a) && StorageKey(b)[n..] == UriComponent.Encode(b);
    assert StorageKey(a)[..n] == OPERATION_PREFIX;
    assert StorageKey(a)[12] == OPERATION_PREFIX[12] && WORKFLOW_KEY[12] != OPERATION_PREFIX[12];
    UriComponent.EncodeInjective(a, b);
  }

  lemma RecordParses(requestBody: string, key: string)
    ensures Parse(RecordText(requestBody, key)) == Some(Obj(map["requestBody" := Str(requestBody)]["key" := Str(key)]))
  {
    hide Canonical, Quote, ParseElement;
    var m2 := "}";
    var t2 := Canonical(Str(key)) + m2;
    var m1 := "," + (Quote("key") + (":" + t2));
    var t1 := Canonical(Str(requestBody)) + m1;
    var text := "{" + (Quote("requestBody") + (":" + t1));
    ElementRoundTrip(Str(requestBody), m1);
    ElementRoundTrip(Str(key), m2);
    var a: map<string, Json> := map[];
    assert m1[1..] == Quote("key") + (":" + t2) && m2[1..] == "";
    MemberStep("requestBody", t1, Str(requestBody), m1, a);
    MemberStep("key", t2, Str(key), m2, a["requestBody" := Str(requestBody)]);
    assert a["requestBody" := Str(requestBody)] == map["requestBody" := Str(requestBody)];
    ParseObject(text, Quote("requestBody") + (":" + t1), "requestBody", ":" + t1);
  }

  /** After an operation has asked, its record holds its body and the key it got. */
  lemma AskedRecords(json: Reader, items: Items, operation: string, requestBody: string, created: string)
    requires ReadsJson(json) && created != ""
    ensures Recorded(json, Asked(json, items, operation, requestBody, created), operation)
         == Some((Str(requestBody), Answer(json, items, operation, requestBody, created)))
  {
    hide Parse, RecordText, Put, Get, StorageKey;
    GetPut(items, StorageKey(operation), RecordText(requestBody, created), StorageKey(operation));
    RecordParses(requestBody, created);
  }

  datatype Event =
    | Ask(operation: string, requestBody: string, created: string)
    | Complete(operation: string, key: string)
    | SaveWorkflow(text: string)
    | ClearWorkflow
    | ClearAll

  function Step(json: Reader, items: Items, e: Event): Items
  {
    match e
    case Ask(operation, requestBody, created) => Asked(json, items, operation, requestBody, created)
    case Complete(operation, key) => Completed(json, items, operation, key)
    case SaveWorkflow(text) => Put(items, WORKFLOW_KEY, text)
    case ClearWorkflow => Drop(items, WORKFLOW_KEY)
    case ClearAll => Cleared(items)
  }

  function Steps(json: Reader, items: Items, es: seq<Event>): Items
  {
    if es == [] then items else Step(json, Steps(json, items, es[..|es| - 1]), es[|es| - 1])
  }

  /** The event neither completes the operation with this key, nor asks it with another body, nor clears all. */
  predicate Spares(e: Event, operation: string, requestBody: string, key: string)
  {
    match e
    case Ask(o, b, _) => o == operation ==> b == requestBody
    case Complete(o, k) => o == operation ==> k != key
    case ClearAll => false
    case _ => true
  }

  lemma StepSpares(json: Reader, items: Items, e: Event, operation: string, requestBody: string, key: string)
    requires ReadsJson(json)
    requires Spares(e, operation, requestBody, key)
    requires Recorded(json, items, operation) == Some((Str(requestBody), key))
    ensures Recorded(json, Step(json, items, e), operation) == Some((Str(requestBody), key))
  {
    hide Parse, RecordText, Put, Get, Drop, StorageKey;
    var mine := StorageKey(operation);
    match e
    case Ask(o, b, created) =>
      StorageKeyInjective(o, operation);
      GetPut(items, StorageKey(o), RecordText(b, created), mine);
    case Complete(o, _) =>
      StorageKeyInjective(o, operation);
      GetDrop(items, StorageKey(o), mine);
    case SaveWorkflow(text) =>
      StorageKeyInjective(operation, operation);
      GetPut(items, WORKFLOW_KEY, text, mine);
    case ClearWorkflow =>
      StorageKeyInjective(operation, operation);
      GetDrop(items, WORKFLOW_KEY, mine);
    case ClearAll =>
      assert false;
  }

  /**
   Once an operation has a key for a body, it gets the same key again, whatever is asked, completed and saved
   meanwhile, until it is completed with that key, asked with another body, or everything is cleared.
   */
  lemma {:induction false} SameKeyUntilCompleted(json: Reader, items: Items, es: seq<Event>, operation: string,
    requestBody: string, created: string, again: string)
    requires ReadsJson(json) && created != ""
    requires forall i :: 0 <= i < |es| ==>
               Spares(es[i], operation, requestBody, Answer(json, items, operation, requestBody, created))
    ensures var asked := Asked(json, items, operation, requestBody, created);
      && (Recorded(json, Steps(json, asked, es), operation)
          == Some((Str(requestBody), Answer(json, items, operation, requestBody, created))))
      && Answer(json, Steps(json, asked, es), operation, requestBody, again)
           == Answer(json, items, operation, requestBody, created)
  {
    hide Asked, Recorded, Step, Spares;
    var key := Answer(json, items, operation, requestBody, created);
    var asked := Asked(json, items, operation, requestBody, created);
    if es == [] {
      AskedRecords(json, items, operation, requestBody, created);
    } else {
      var before, e := es[..|es| - 1], es[|es| - 1];
      SameKeyUntilCompleted(json, items, before, operation, requestBody, created, again);
      StepSpares(json, Steps(json, asked, before), e, operation, requestBody, key);
    }
  }

  /** Completing removes a record exactly when the key is the recorded one: a stale key never removes a newer record. */
  lemma CompletedExactly(json: Reader, items: Items, operation: string, key: string)
    requires Recorded(json, items, operation).Some?
    ensures var recorded := Recorded(json, items, operation).value.1;
      && (key == recorded ==> Get(Completed(json, items, operation, key), StorageKey(operation)) == None)
      && (key != recorded ==> Completed(json, items, operation, key) == items)
      && forall o :: o != StorageKey(operation) ==> Get(Completed(json, items, operation, key), o) == Get(items, o)
  {
    hide Parse, Drop, Get, StorageKey;
    forall o
      ensures Get(Drop(items, StorageKey(operation)), o)
           == if o == StorageKey(operation) then None else Get(items, o)
    {
      GetDrop(items, StorageKey(operation), o);
    }
  }
}
