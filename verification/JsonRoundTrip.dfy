/** Parsing inverts printing, so canonical texts and values correspond one to one. */
module JsonRoundTrip {
  import opened Wrappers
  import opened Sorting
  import opened Unicode
  import opened Decimal
  import opened JsonText

  /** A suffix that cannot extend the number before it. */
  predicate Stops(rest: string)
  {
    rest == "" || (!IsDigit(rest[0]) && !ExtendsNumber(rest[0]))
  }

  // ---- Strings ----

  lemma EscapeCharParses(c: char, rest: string)
    ensures EscapeChar(c) != "" && ' ' <= EscapeChar(c)[0] && EscapeChar(c)[0] != '\"'
    ensures EscapeChar(c)[0] == '\\' ==> Unescape(EscapeChar(c)[1..] + rest) == Some((c, rest))
    ensures EscapeChar(c)[0] != '\\' ==> EscapeChar(c) == [c]
  {
    var e := EscapeChar(c);
    if |e| == 6 {
      var t := e[1..] + rest;
      var h, l := c as int / 16, c as int % 16;
      assert t[1..][0] == '0' && t[1..][1] == '0';
      assert t[1..][2..][0] == HexDigit(h, 'a') && t[1..][2..][1] == HexDigit(l, 'a');
      assert HexValue(HexDigit(h, 'a')) == Some(h) && HexValue(HexDigit(l, 'a')) == Some(l);
      assert Hex2(t[1..]) == Some(0) && Hex2(t[1..][2..]) == Some(h * 16 + l);
      assert Hex4(t[1..]) == Some(c as int);
      assert t[5..] == rest;
    } else if |e| == 2 {
      assert (e[1..] + rest)[1..] == rest;
    }
  }

  /** Reading one printed character gives it back, before whatever the rest gives. */
  lemma CharStep(c: char, more: string)
    requires ParseChars(more).Some?
    ensures ParseChars(EscapeChar(c) + more)
         == Some(([c] + ParseChars(more).value.0, ParseChars(more).value.1))
  {
    var e := EscapeChar(c);
    var text := e + more;
    EscapeCharParses(c, more);
    assert text[0] == e[0] && text[1..] == e[1..] + more;
    assert e == [c] ==> text[1..] == more;
  }

  lemma {:induction false} CharsRoundTrip(s: string, rest: string)
    ensures ParseChars(Escape(s) + ("\"" + rest)) == Some((s, rest))
  {
    var tail := "\"" + rest;
    if s == "" {
      assert Escape(s) + tail == tail && tail[1..] == rest;
    } else {
      CharsRoundTrip(s[1..], rest);
      CharStep(s[0], Escape(s[1..]) + tail);
      ConcatAssociative(EscapeChar(s[0]), Escape(s[1..]), tail);
      assert s == [s[0]] + s[1..];
    }
  }

  /** A quoted string parses to itself whatever follows it. */
  lemma QuoteRoundTrip(s: string, rest: string)
    ensures Quote(s) + rest != "" && (Quote(s) + rest)[0] == '\"'
    ensures ParseChars((Quote(s) + rest)[1..]) == Some((s, rest))
  {
    assert (Quote(s) + rest)[1..] == Escape(s) + ("\"" + rest);
    CharsRoundTrip(s, rest);
  }

  // ---- Numbers ----

  lemma DigitsParse(negative: bool, digits: string, rest: string)
    requires Stops(rest) && digits != "" && AllDigits(digits) && (digits[0] == '0' ==> |digits| == 1)
    requires IsSafe(Signed(negative, Value(digits)))
    ensures ParseDigits(negative, digits + rest) == Some((Num(Signed(negative, Value(digits))), rest))
  {
    var t := digits + rest;
    LeadingDigits(digits, rest);
    assert t[..|digits|] == digits && t[|digits|..] == rest;
  }


  lemma NumberRoundTrip(n: int, rest: string)
    requires Stops(rest) && IsSafe(n)
    ensures ParseNumber(Print(n) + rest) == Some((Num(n), rest))
  {
    var m: nat := if n < 0 then -n else n;
    var digits := Digits(m);
    ValueOfDigits(m);
    NoLeadingZero(m);
    DigitsParse(n < 0, digits, rest);
    if n < 0 {
      var s := ("-" + digits) + rest;
      assert s[0] == '-' && s[1..] == digits + rest;
    } else {
      assert (digits + rest)[0] == digits[0];
    }
  }

  // ---- Values ----

  /** Every encoding starts with a character that no closing bracket and no white space is. */
  lemma EncodeStart(keysOf: KeyOrder, v: Json, rest: string)
    requires Enumerates(keysOf)
    ensures EncodeBy(keysOf, v) != "" && !IsSpace(EncodeBy(keysOf, v)[0])
    ensures EncodeBy(keysOf, v)[0] != ']'
    ensures SkipSpace(EncodeBy(keysOf, v) + rest) == EncodeBy(keysOf, v) + rest
  {
  }

  function Collect(v: Json, keys: seq<string>, acc: map<string, Json>): map<string, Json>
    requires v.Obj? && forall k :: k in keys ==> k in v.fields
  {
    if keys == [] then acc else Collect(v, keys[1..], acc[keys[0] := v.fields[keys[0]]])
  }

  lemma {:induction false} CollectAll(v: Json, keys: seq<string>, acc: map<string, Json>)
    requires v.Obj? && forall k :: k in keys ==> k in v.fields
    ensures Collect(v, keys, acc) == acc + map k | k in keys :: v.fields[k]
  {
    if keys != [] {
      assert keys == [keys[0]] + keys[1..];
      CollectAll(v, keys[1..], acc[keys[0] := v.fields[keys[0]]]);
    }
  }

  lemma {:induction false} ValueRoundTrip(keysOf: KeyOrder, v: Json, rest: string)
    requires Enumerates(keysOf) && Stops(rest)
    ensures ParseValue(EncodeBy(keysOf, v) + rest) == Some((v, rest))
    decreases v, 0
  {
    var s := EncodeBy(keysOf, v) + rest;
    match v
    case Null => assert s[4..] == rest;
    case Bool(b) =>
      assert b ==> s[4..] == rest;
      assert !b ==> s[..5] == "false" && s[5..] == rest;
    case Num(n) =>
      NumberRoundTrip(n, rest);
    case Str(cs) =>
      QuoteRoundTrip(cs, rest);
    case Arr(items) =>
      ArrayRoundTrip(keysOf, v, rest);
    case Obj(fields) =>
      ObjectRoundTrip(keysOf, v, rest);
  }

  lemma {:induction false} ArrayRoundTrip(keysOf: KeyOrder, v: Json, rest: string)
    requires Enumerates(keysOf) && v.Arr?
    ensures ParseValue(EncodeBy(keysOf, v) + rest) == Some((v, rest))
    decreases v, 0, 0
  {
    var t := EncodeItems(keysOf, v.items) + ("]" + rest);
    assert (EncodeBy(keysOf, v) + rest)[1..] == t;
    if v.items == [] {
      assert t == "]" + rest && t[0] == ']' && t[1..] == rest;
      assert SkipSpace(t) == t;
      assert v == Arr([]);
    } else {
      EncodeStart(keysOf, v.items[0], "");
      assert t[0] == EncodeBy(keysOf, v.items[0])[0];
      assert SkipSpace(t) == t;
      ItemsRoundTrip(keysOf, v.items, rest);
    }
  }

  lemma {:induction false} ObjectRoundTrip(keysOf: KeyOrder, v: Json, rest: string)
    requires Enumerates(keysOf) && v.Obj?
    ensures ParseValue(EncodeBy(keysOf, v) + rest) == Some((v, rest))
    decreases v, 0, 0, 0
  {
    var keys := keysOf(v.fields.Keys);
    var t := EncodeMembers(keysOf, v, keys) + ("}" + rest);
    assert (EncodeBy(keysOf, v) + rest)[1..] == t;
    if keys == [] {
      assert forall k :: k !in v.fields;
      assert v.fields == map[];
      assert t == "}" + rest && t[1..] == rest;
    } else {
      assert EncodeMember(keysOf, v, keys[0])[0] == '\"';
      assert t[0] == '\"';
      assert SkipSpace(t) == t;
      MembersRoundTrip(keysOf, v, keys, rest, map[]);
      CollectAll(v, keys, map[]);
      assert map[] + (map k | k in keys :: v.fields[k]) == v.fields;
    }
  }

  lemma {:induction false} ItemsRoundTrip(keysOf: KeyOrder, items: seq<Json>, rest: string)
    requires Enumerates(keysOf) && items != []
    ensures ParseItems(EncodeItems(keysOf, items) + ("]" + rest)) == Some((items, rest))
    decreases items, 0
  {
    var first := EncodeBy(keysOf, items[0]);
    var more := if |items| == 1 then "]" + rest else "," + (EncodeItems(keysOf, items[1..]) + ("]" + rest));
    assert EncodeItems(keysOf, items) + ("]" + rest) == first + more;
    EncodeStart(keysOf, items[0], more);
    ValueRoundTrip(keysOf, items[0], more);
    assert SkipSpace(more) == more;
    assert items == [items[0]] + items[1..];
    if |items| == 1 {
      assert more[1..] == rest && items == [items[0]];
    } else {
      assert more[1..] == EncodeItems(keysOf, items[1..]) + ("]" + rest);
      ItemsRoundTrip(keysOf, items[1..], rest);
    }
  }

  /** One step of the member loop: key, colon, value, then a comma or the closing brace. */
  lemma MemberStep(k: string, valueText: string, v: Json, more: string, acc: map<string, Json>)
    requires ParseElement(valueText) == Some((v, more)) && more != ""
    ensures more[0] == '}' ==>
      ParseMembers(Quote(k) + (":" + valueText), acc) == Some((Obj(acc[k := v]), more[1..]))
    ensures more[0] == ',' ==>
      ParseMembers(Quote(k) + (":" + valueText), acc) == ParseMembers(more[1..], acc[k := v])
  {
    var colon := ":" + valueText;
    var s := Quote(k) + colon;
    QuoteRoundTrip(k, colon);
    assert SkipSpace(s) == s;
    assert SkipSpace(colon) == colon && colon[1..] == valueText;
  }

  lemma MembersText(keysOf: KeyOrder, v: Json, keys: seq<string>, rest: string)
    requires Enumerates(keysOf)
    requires v.Obj? && keys != [] && forall k :: k in keys ==> k in v.fields
    ensures var tail := if |keys| == 1 then "" else EncodeMembers(keysOf, v, keys[1..]);
      var more := if |keys| == 1 then "}" + rest else "," + (tail + ("}" + rest));
      EncodeMembers(keysOf, v, keys) + ("}" + rest)
      == Quote(keys[0]) + (":" + (EncodeBy(keysOf, v.fields[keys[0]]) + more))
  {
  }

  lemma {:induction false} MembersRoundTrip(
    keysOf: KeyOrder, v: Json, keys: seq<string>, rest: string, acc: map<string, Json>)
    requires Enumerates(keysOf)
    requires v.Obj? && keys != [] && forall k :: k in keys ==> k in v.fields
    ensures ParseMembers(EncodeMembers(keysOf, v, keys) + ("}" + rest), acc)
         == Some((Obj(Collect(v, keys, acc)), rest))
    decreases v, 0, 0, 0, |keys|
  {
    var k := keys[0];
    var first := EncodeBy(keysOf, v.fields[k]);
    var tail := if |keys| == 1 then "" else EncodeMembers(keysOf, v, keys[1..]);
    var more := if |keys| == 1 then "}" + rest else "," + (tail + ("}" + rest));
    MembersText(keysOf, v, keys, rest);
    EncodeStart(keysOf, v.fields[k], more);
    ValueRoundTrip(keysOf, v.fields[k], more);
    assert SkipSpace(more) == more;
    MemberStep(k, first + more, v.fields[k], more, acc);
    if |keys| == 1 {
      assert more[1..] == rest;
      assert keys[1..] == [];
    } else {
      assert more[1..] == tail + ("}" + rest);
      MembersRoundTrip(keysOf, v, keys[1..], rest, acc[k := v.fields[k]]);
    }
  }

  // ---- Main results ----

  /** `JSON.parse` of an encoding is the value, whichever order the encoder prints keys in. */
  lemma ParseEncode(keysOf: KeyOrder, v: Json)
    requires Enumerates(keysOf)
    ensures Parse(EncodeBy(keysOf, v)) == Some(v)
  {
    assert EncodeBy(keysOf, v) + "" == EncodeBy(keysOf, v);
    EncodeStart(keysOf, v, "");
    ValueRoundTrip(keysOf, v, "");
  }

  /** Equal encodings mean equal values. */
  lemma EncodeInjective(keysOf: KeyOrder, v: Json, w: Json)
    requires Enumerates(keysOf)
    ensures EncodeBy(keysOf, v) == EncodeBy(keysOf, w) <==> v == w
  {
    ParseEncode(keysOf, v);
    ParseEncode(keysOf, w);
  }

  /** The parse-and-compare check accepts a text for `v` exactly when it is the canonical text of `v`. */
  lemma CanonicalExactly(text: string, v: Json)
    ensures ParseCanonical(text) == Some(v) <==> text == Canonical(v)
  {
    ParseEncode(SortedKeys, v);
  }

  /** White space, another key order, a repeated key or another escape: any second text of a value is refused. */
  lemma OneTextPerValue(text: string, other: string)
    requires Parse(text) == Parse(other) && ParseCanonical(text).Some? && text != other
    ensures ParseCanonical(other) == None
  {
    var v := ParseCanonical(text).value;
    CanonicalExactly(text, v);
    CanonicalExactly(other, v);
  }
}
