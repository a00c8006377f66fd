/** Checks on values of unknown shape, as both in-memory services make them before any effect. */
module Validation {
  import opened Wrappers
  import opened Unicode
  import opened Decimal
  import opened JsonText
  import opened JsonRoundTrip

  datatype Code =
    | AuthRequired | NotFound | ValidationError | ConfirmationRequired | ConfirmationInvalid
    | IdempotencyRequired | IdempotencyConflict | InsufficientStock | CapacityExceeded

  const LIST_LIMIT := 100

  /** `slice(0, n)`. */
  function FirstOf<T>(s: seq<T>, n: nat): seq<T>
  {
    if |s| <= n then s else s[..n]
  }

  /** The white space and line ends `trim()` removes. */
  predicate IsBlank(c: char)
  {
    var n := c as int;
    9 <= n <= 13 || n == 32 || n == 0xA0 || n == 0x1680 || 0x2000 <= n <= 0x200A || n == 0x2028 || n == 0x2029
    || n == 0x202F || n == 0x205F || n == 0x3000 || n == 0xFEFF
  }

  function TrimStart(s: string): string
  {
    if s != "" && IsBlank(s[0]) then TrimStart(s[1..]) else s
  }

  function TrimEnd(s: string): string
  {
    if s != "" && IsBlank(s[|s| - 1]) then TrimEnd(s[..|s| - 1]) else s
  }

  function Trim(s: string): string
  {
    TrimEnd(TrimStart(s))
  }

  function BoundedString(v: Json, min: int, max: int): Result<string, Code>
  {
    if !v.Str? then Err(ValidationError)
    else
      var s := Trim(v.s);
      if min <= Length(s) <= max then Ok(s) else Err(ValidationError)
  }

  predicate KeyChar(c: char)
  {
    'A' <= c <= 'Z' || 'a' <= c <= 'z' || '0' <= c <= '9' || c == '.' || c == '_' || c == ':' || c == '-'
  }

  /** `normalizeIdempotencyKey`; a missing key is Null. */
  function NormalizeIdempotencyKey(v: Json, failure: Code): Result<string, Code>
  {
    if v.Str? && 8 <= |v.s| <= 128 && (forall i :: 0 <= i < |v.s| ==> KeyChar(v.s[i])) then Ok(v.s)
    else Err(failure)
  }

  // ---- Reservations ----

  datatype ReservationInput = ReservationInput(sku: string, quantity: Safe, orderReference: string, confirmed: bool)

  const MAX_RESERVED_QUANTITY := 99

  function NormalizeReservationInput(v: Json): (r: Result<ReservationInput, Code>)
    ensures r.Ok? ==> 1 <= r.value.quantity <= MAX_RESERVED_QUANTITY
  {
    if !ExactKeys(v, {"sku", "quantity", "orderReference", "confirmed"}) then Err(ValidationError)
    else
      var f := v.fields;
      if !(f["quantity"].Num? && 1 <= f["quantity"].n <= MAX_RESERVED_QUANTITY) || !f["confirmed"].Bool? then
        Err(ValidationError)
      else
        var sku :- BoundedString(f["sku"], 1, 64);
        var orderReference :- BoundedString(f["orderReference"], 3, 64);
        Ok(ReservationInput(sku, f["quantity"].n, orderReference, f["confirmed"].b))
  }

  function NormalizeReservationRequest(v: Json): Result<(ReservationInput, string), Code>
  {
    if !ExactKeys(v, {"toolName", "input", "idempotencyKey"}) || v.fields["toolName"] != Str("reserve_part_stock") then
      Err(ValidationError)
    else
      var input :- NormalizeReservationInput(v.fields["input"]);
      var key :- NormalizeIdempotencyKey(v.fields["idempotencyKey"], ValidationError);
      Ok((input, key))
  }

  /** `JSON.stringify` of three members, in the order they are written. */
  function ThreeMembers(k1: string, v1: Json, k2: string, v2: Json, k3: string, v3: Json): string
  {
    "{" + (Quote(k1) + (":" + (Canonical(v1)
    + ("," + (Quote(k2) + (":" + (Canonical(v2)
    + ("," + (Quote(k3) + (":" + (Canonical(v3) + "}")))))))))))
  }

  function ReservationFingerprint(i: ReservationInput): string
  {
    ThreeMembers("sku", Str(i.sku), "quantity", Num(i.quantity), "orderReference", Str(i.orderReference))
  }

  // ---- Tickets ----

  datatype TicketInput = TicketInput(orderId: string, title: string, priority: string)

  function NormalizeTicketInput(v: Json): Result<TicketInput, Code>
  {
    if !ExactKeys(v, {"orderId", "title", "priority"}) then Err(ValidationError)
    else
      var f := v.fields;
      if f["priority"] != Str("low") && f["priority"] != Str("medium") && f["priority"] != Str("high") then
        Err(ValidationError)
      else
        var orderId :- BoundedString(f["orderId"], 1, 64);
        var title :- BoundedString(f["title"], 3, 120);
        Ok(TicketInput(orderId, title, f["priority"].s))
  }

  function TicketFingerprint(i: TicketInput): string
  {
    ThreeMembers("orderId", Str(i.orderId), "title", Str(i.title), "priority", Str(i.priority))
  }

  // ---- What the checks accept ----

  predicate Blank(s: string)
  {
    forall i :: 0 <= i < |s| ==> IsBlank(s[i])
  }

  /** `r` is `s` without the blank characters around it. */
  ghost predicate Trimmed(s: string, r: string)
  {
    && (exists before: string, after: string :: Blank(before) && Blank(after) && s == before + r + after)
    && (r != "" ==> !IsBlank(r[0]) && !IsBlank(r[|r| - 1]))
  }

  lemma {:induction false} TrimStartExactly(s: string) returns (before: string)
    ensures Blank(before) && s == before + TrimStart(s)
    ensures TrimStart(s) != "" ==> !IsBlank(TrimStart(s)[0])
  {
    hide IsBlank;
    before := "";
    if s != "" && IsBlank(s[0]) {
      var more := TrimStartExactly(s[1..]);
      before := [s[0]] + more;
      assert s == [s[0]] + s[1..];
    }
  }

  lemma {:induction false} TrimEndExactly(s: string) returns (after: string)
    ensures Blank(after) && s == TrimEnd(s) + after
    ensures TrimEnd(s) != "" ==> !IsBlank(TrimEnd(s)[|TrimEnd(s)| - 1])
  {
    hide IsBlank;
    after := "";
    if s != "" && IsBlank(s[|s| - 1]) {
      var more := TrimEndExactly(s[..|s| - 1]);
      after := more + [s[|s| - 1]];
      assert s == s[..|s| - 1] + [s[|s| - 1]];
    }
  }

  lemma TrimIsTrimmed(s: string)
    ensures Trimmed(s, Trim(s))
  {
    hide IsBlank, TrimStart, TrimEnd;
    var before := TrimStartExactly(s);
    var t := TrimStart(s);
    var after := TrimEndExactly(t);
    ConcatAssociative(before, TrimEnd(t), after);
    assert TrimEnd(t) != "" ==> t != "" && TrimEnd(t)[0] == t[0];
  }

  lemma {:induction false} TrimStartSkips(before: string, r: string)
    requires Blank(before) && (r == "" || !IsBlank(r[0]))
    ensures TrimStart(before + r) == r
  {
    hide IsBlank;
    if before == "" {
      assert before + r == r;
    } else {
      assert (before + r)[1..] == before[1..] + r;
      TrimStartSkips(before[1..], r);
    }
  }

  lemma {:induction false} TrimEndSkips(r: string, after: string)
    requires Blank(after) && (r == "" || !IsBlank(r[|r| - 1]))
    ensures TrimEnd(r + after) == r
  {
    hide IsBlank;
    if after == "" {
      assert r + after == r;
    } else {
      assert (r + after)[..|r + after| - 1] == r + after[..|after| - 1];
      TrimEndSkips(r, after[..|after| - 1]);
    }
  }

  /** `trim()` answers the one text that is trimmed. */
  lemma TrimExactly(s: string, r: string)
    ensures Trim(s) == r <==> Trimmed(s, r)
  {
    hide IsBlank, TrimStart, TrimEnd;
    TrimIsTrimmed(s);
    if Trimmed(s, r) {
      var before: string, after: string :| Blank(before) && Blank(after) && s == before + r + after;
      ConcatAssociative(before, r, after);
      if r == "" {
        AllBlank(before, after);
      } else {
        TrimStartSkips(before, r + after);
        TrimEndSkips(r, after);
      }
    }
  }

  lemma AllBlank(before: string, after: string)
    requires Blank(before) && Blank(after)
    ensures Trim(before + "" + after) == ""
  {
    hide IsBlank, TrimStart, TrimEnd;
    var s := before + "" + after;
    TrimStartSkips(s, "");
    assert s + "" == s;
    TrimEndSkips("", "");
    assert "" + "" == "";
  }

  /** A bounded string is a text that keeps to its bounds once trimmed. */
  ghost predicate Bounds(v: Json, r: string, min: int, max: int)
  {
    v.Str? && Trimmed(v.s, r) && min <= |Units(r)| <= max
  }

  lemma BoundedExactly(v: Json, r: string, min: int, max: int)
    ensures BoundedString(v, min, max) == Ok(r) <==> Bounds(v, r, min, max)
    ensures BoundedString(v, min, max).Ok? || BoundedString(v, min, max) == Err(ValidationError)
  {
    hide Trim, Trimmed, Units;
    if v.Str? {
      TrimExactly(v.s, r);
    }
  }

  /** `/^[A-Za-z0-9._:-]{8,128}$/`, by character codes. */
  predicate ProperKey(s: string)
  {
    && 8 <= |s| <= 128
    && forall i :: 0 <= i < |s| ==>
         var n := s[i] as int;
         0x41 <= n <= 0x5A || 0x61 <= n <= 0x7A || 0x30 <= n <= 0x3A || n == 0x2D || n == 0x2E || n == 0x5F
  }

  lemma KeyExactly(v: Json, failure: Code, k: string)
    ensures NormalizeIdempotencyKey(v, failure) == Ok(k) <==> v == Str(k) && ProperKey(k)
    ensures NormalizeIdempotencyKey(v, failure).Ok? || NormalizeIdempotencyKey(v, failure) == Err(failure)
  {
  }

  /** An input is accepted exactly when its four members are there, and no others, and each keeps to its bounds. */
  lemma ReservationInputExactly(v: Json, r: ReservationInput)
    ensures NormalizeReservationInput(v) == Ok(r) <==>
      && v.Obj? && v.fields.Keys == {"sku", "quantity", "orderReference", "confirmed"}
      && Bounds(v.fields["sku"], r.sku, 1, 64) && Bounds(v.fields["orderReference"], r.orderReference, 3, 64)
      && v.fields["quantity"] == Num(r.quantity) && 1 <= r.quantity <= 99
      && v.fields["confirmed"] == Bool(r.confirmed)
    ensures NormalizeReservationInput(v).Ok? || NormalizeReservationInput(v) == Err(ValidationError)
  {
    hide BoundedString, Bounds;
    if ExactKeys(v, {"sku", "quantity", "orderReference", "confirmed"}) {
      BoundedExactly(v.fields["sku"], r.sku, 1, 64);
      BoundedExactly(v.fields["orderReference"], r.orderReference, 3, 64);
    }
  }

  lemma TicketInputExactly(v: Json, r: TicketInput)
    ensures NormalizeTicketInput(v) == Ok(r) <==>
      && v.Obj? && v.fields.Keys == {"orderId", "title", "priority"}
      && Bounds(v.fields["orderId"], r.orderId, 1, 64) && Bounds(v.fields["title"], r.title, 3, 120)
      && v.fields["priority"] == Str(r.priority) && r.priority in {"low", "medium", "high"}
    ensures NormalizeTicketInput(v).Ok? || NormalizeTicketInput(v) == Err(ValidationError)
  {
    hide BoundedString, Bounds;
    if ExactKeys(v, {"orderId", "title", "priority"}) {
      BoundedExactly(v.fields["orderId"], r.orderId, 1, 64);
      BoundedExactly(v.fields["title"], r.title, 3, 120);
    }
  }

  /** A request to confirm a reservation names the tool and holds an input and a key, and nothing else. */
  lemma ReservationRequestExactly(v: Json, r: ReservationInput, key: string)
    ensures NormalizeReservationRequest(v) == Ok((r, key)) <==>
      && v.Obj? && v.fields.Keys == {"toolName", "input", "idempotencyKey"}
      && v.fields["toolName"] == Str("reserve_part_stock")
      && NormalizeReservationInput(v.fields["input"]) == Ok(r)
      && v.fields["idempotencyKey"] == Str(key) && ProperKey(key)
    ensures NormalizeReservationRequest(v).Ok? || NormalizeReservationRequest(v) == Err(ValidationError)
  {
    hide NormalizeReservationInput, NormalizeIdempotencyKey, ProperKey;
    if ExactKeys(v, {"toolName", "input", "idempotencyKey"}) {
      InputOrError(v.fields["input"]);
      KeyExactly(v.fields["idempotencyKey"], ValidationError, key);
    }
  }

  lemma InputOrError(v: Json)
    ensures NormalizeReservationInput(v).Ok? || NormalizeReservationInput(v) == Err(ValidationError)
  {
    hide BoundedString;
    if ExactKeys(v, {"sku", "quantity", "orderReference", "confirmed"}) {
      BoundedExactly(v.fields["sku"], "", 1, 64);
      BoundedExactly(v.fields["orderReference"], "", 3, 64);
    }
  }

  // ---- A fingerprint determines its input ----

  lemma ElementRoundTrip(v: Json, more: string)
    requires more != "" && (more[0] == ',' || more[0] == '}')
    ensures ParseElement(Canonical(v) + more) == Some((v, more))
  {
    EncodeStart(Sorting.SortedKeys, v, more);
    ValueRoundTrip(Sorting.SortedKeys, v, more);
    hide EncodeBy, ParseValue;
    assert SkipSpace(more) == more;
  }

  lemma ThreeMembersParse(k1: string, v1: Json, k2: string, v2: Json, k3: string, v3: Json)
    ensures Parse(ThreeMembers(k1, v1, k2, v2, k3, v3)) == Some(Obj(map[k1 := v1][k2 := v2][k3 := v3]))
  {
    hide Canonical, Quote, ParseElement;
    var m3 := "}";
    var t3 := Canonical(v3) + m3;
    var m2 := "," + (Quote(k3) + (":" + t3));
    var t2 := Canonical(v2) + m2;
    var m1 := "," + (Quote(k2) + (":" + t2));
    var t1 := Canonical(v1) + m1;
    var text := "{" + (Quote(k1) + (":" + t1));
    ElementRoundTrip(v1, m1);
    ElementRoundTrip(v2, m2);
    ElementRoundTrip(v3, m3);
    var a1: map<string, Json> := map[];
    assert m1[1..] == Quote(k2) + (":" + t2) && m2[1..] == Quote(k3) + (":" + t3) && m3[1..] == "";
    MemberStep(k1, t1, v1, m1, a1);
    MemberStep(k2, t2, v2, m2, a1[k1 := v1]);
    MemberStep(k3, t3, v3, m3, a1[k1 := v1][k2 := v2]);
    assert a1[k1 := v1] == map[k1 := v1];
    ParseObject(text, Quote(k1) + (":" + t1), k1, ":" + t1);
  }

  lemma ParseObject(text: string, inner: string, k: string, more: string)
    requires text == "{" + inner && inner == Quote(k) + more
    requires ParseMembers(inner, map[]).Some? && ParseMembers(inner, map[]).value.1 == ""
    ensures Parse(text) == Some(ParseMembers(inner, map[]).value.0)
  {
    QuoteRoundTrip(k, more);
    hide Quote, ParseMembers, ParseChars;
    assert text[1..] == inner && SkipSpace(text) == text && SkipSpace(inner) == inner;
    assert inner[0] == '\"';
    assert ParseValue(text) == ParseMembers(inner, map[]);
    assert SkipSpace("") == "";
    assert ParseElement(text) == ParseMembers(inner, map[]);
  }

  /** Two reservations have one fingerprint exactly when everything but the confirmation flag is the same. */
  lemma ReservationFingerprintInjective(a: ReservationInput, b: ReservationInput)
    ensures ReservationFingerprint(a) == ReservationFingerprint(b)
       <==> a.sku == b.sku && a.quantity == b.quantity && a.orderReference == b.orderReference
  {
    hide ThreeMembers, Parse;
    ThreeMembersParse("sku", Str(a.sku), "quantity", Num(a.quantity), "orderReference", Str(a.orderReference));
    ThreeMembersParse("sku", Str(b.sku), "quantity", Num(b.quantity), "orderReference", Str(b.orderReference));
    if ReservationFingerprint(a) == ReservationFingerprint(b) {
      var ma := map["sku" := Str(a.sku)]["quantity" := Num(a.quantity)]["orderReference" := Str(a.orderReference)];
      var mb := map["sku" := Str(b.sku)]["quantity" := Num(b.quantity)]["orderReference" := Str(b.orderReference)];
      assert ma == mb;
      assert ma["sku"] == mb["sku"] && ma["quantity"] == mb["quantity"] && ma["orderReference"] == mb["orderReference"];
    }
  }

  lemma TicketFingerprintInjective(a: TicketInput, b: TicketInput)
    ensures TicketFingerprint(a) == TicketFingerprint(b) <==> a == b
  {
    hide ThreeMembers, Parse;
    ThreeMembersParse("orderId", Str(a.orderId), "title", Str(a.title), "priority", Str(a.priority));
    ThreeMembersParse("orderId", Str(b.orderId), "title", Str(b.title), "priority", Str(b.priority));
    if TicketFingerprint(a) == TicketFingerprint(b) {
      var ma := map["orderId" := Str(a.orderId)]["title" := Str(a.title)]["priority" := Str(a.priority)];
      var mb := map["orderId" := Str(b.orderId)]["title" := Str(b.title)]["priority" := Str(b.priority)];
      assert ma == mb;
      assert ma["orderId"] == mb["orderId"] && ma["title"] == mb["title"] && ma["priority"] == mb["priority"];
    }
  }
}
