/** The identity of a source: three length-prefixed fields, the last one JSON in the engine's order of keys. */
module SourceIdentity {
  import opened Wrappers
  import opened Unicode
  import opened Decimal
  import opened Sorting
  import opened JsonText
  import opened JsonRoundTrip

  // ---- The order in which an object built from sorted keys lists them ----

  predicate PlainDigits(k: string)
  {
    k != "" && AllDigits(k) && (k == "0" || k[0] != '0')
  }

  /** An array index, which objects list before all other keys and by number. */
  predicate IsIndex(k: string)
  {
    PlainDigits(k) && Value(k) < 0xFFFF_FFFF
  }

  predicate ListedBefore(a: string, b: string)
  {
    if IsIndex(a) && IsIndex(b) then Value(a) < Value(b)
    else if IsIndex(a) || IsIndex(b) then IsIndex(a)
    else Before(a, b)
  }

  lemma DigitsStep(v: nat, d: nat)
    requires v > 0 && d < 10
    ensures Digits(v * 10 + d) == Digits(v) + [DigitChar(d)]
  {
    assert (v * 10 + d) / 10 == v && (v * 10 + d) % 10 == d;
  }

  lemma OneDigit(k: string)
    requires |k| == 1 && AllDigits(k)
    ensures Value(k) == k[0] as int - '0' as int && Digits(Value(k)) == k
  {
    assert k[..0] == "" && Value("") == 0;
  }

  lemma {:induction false} DigitsOfValue(k: string)
    requires PlainDigits(k)
    ensures Digits(Value(k)) == k
    ensures k[0] != '0' ==> Value(k) > 0
  {
    hide Digits;
    if |k| == 1 {
      OneDigit(k);
    } else {
      var init, last := k[..|k| - 1], k[|k| - 1];
      DigitsOfValue(init);
      DigitsStep(Value(init), last as int - '0' as int);
      assert k == init + [last];
    }
  }

  lemma ListedBeforeIsStrictTotal()
    ensures StrictTotal(ListedBefore)
  {
    BeforeIsStrictTotal();
    hide Before, Value, PlainDigits;
    forall a, b
      ensures ListedBefore(a, b) || a == b || ListedBefore(b, a)
    {
      if IsIndex(a) && IsIndex(b) {
        DigitsOfValue(a);
        DigitsOfValue(b);
      }
    }
  }

  function ListedKeys(s: set<string>): (r: seq<string>)
    ensures forall k :: k in r <==> k in s
    ensures Ascending(ListedBefore, r)
  {
    ListedBeforeIsStrictTotal();
    Ordered(ListedBefore, s)
  }

  /** The `canonicalJson` of source-identity.ts. */
  function Configuration(v: Json): string
  {
    EncodeBy(ListedKeys, v)
  }

  // ---- The material and its hash ----

  function Framed(field: string, more: string): string
  {
    Digits(ByteLength(field)) + (":" + (field + more))
  }

  function Material(sourceType: string, sourceUrl: string, configuration: Json): string
  {
    Framed(sourceType, ":" + Framed(sourceUrl, ":" + Framed(Configuration(configuration), "")))
  }

  function ComputeSourceIdentityHash(sha256: string -> string, sourceType: string, sourceUrl: string,
    configuration: Json): Result<string, string>
  {
    if sourceType == "" || sourceUrl == "" then Err("SOURCE_IDENTITY_INPUT_INVALID")
    else Ok(sha256(Material(sourceType, sourceUrl, configuration)))
  }

  /** A length prefix makes the field and what follows it readable again, whatever they contain. */
  lemma FramedInjective(a: string, moreA: string, b: string, moreB: string)
    requires Framed(a, moreA) == Framed(b, moreB)
    ensures a == b && moreA == moreB
  {
    var na, nb := Digits(ByteLength(a)), Digits(ByteLength(b));
    var ta, tb := ":" + (a + moreA), ":" + (b + moreB);
    LeadingDigits(na, ta);
    LeadingDigits(nb, tb);
    ValueOfDigits(ByteLength(a));
    ValueOfDigits(ByteLength(b));
    hide Digits, ByteLength, Leading, Value;
    assert na + ta == nb + tb && |na| == |nb|;
    assert na == (na + ta)[..|na|] == (nb + tb)[..|nb|] == nb;
    assert ta == (na + ta)[|na|..] == (nb + tb)[|nb|..] == tb;
    assert a + moreA == ta[1..] == tb[1..] == b + moreB;
    PrefixByBytes(a, b, moreA, moreB);
  }

  /** The material is injective: in type, in URL, and in the configuration up to the order of its keys. */
  lemma MaterialInjective(t: string, u: string, c: Json, t': string, u': string, c': Json)
    ensures Material(t, u, c) == Material(t', u', c') <==> t == t' && u == u' && c == c'
  {
    hide Framed, Configuration, ByteLength;
    if Material(t, u, c) == Material(t', u', c') {
      var last, last' := Framed(Configuration(c), ""), Framed(Configuration(c'), "");
      var mid, mid' := Framed(u, ":" + last), Framed(u', ":" + last');
      FramedInjective(t, ":" + mid, t', ":" + mid');
      assert mid == (":" + mid)[1..] == (":" + mid')[1..] == mid';
      FramedInjective(u, ":" + last, u', ":" + last');
      assert last == (":" + last)[1..] == (":" + last')[1..] == last';
      FramedInjective(Configuration(c), "", Configuration(c'), "");
      ConfigurationInjective(c, c');
    }
  }

  lemma ConfigurationInjective(c: Json, c': Json)
    ensures Configuration(c) == Configuration(c') <==> c == c'
  {
    hide EncodeBy;
    EncodeInjective(ListedKeys, c, c');
  }

  /** A source without a type or without a URL has no identity; any other has. */
  lemma IdentityOrError(sha256: string -> string, t: string, u: string, c: Json)
    ensures ComputeSourceIdentityHash(sha256, t, u, c) ==
      if |t| == 0 || |u| == 0 then Err("SOURCE_IDENTITY_INPUT_INVALID") else Ok(sha256(Material(t, u, c)))
  {
    hide Material;
  }

  /** Where the hashes of the two materials do not collide, one identity means one source. */
  lemma IdentityExactly(sha256: string -> string, t: string, u: string, c: Json, t': string, u': string, c': Json)
    requires sha256(Material(t, u, c)) == sha256(Material(t', u', c')) ==> Material(t, u, c) == Material(t', u', c')
    requires ComputeSourceIdentityHash(sha256, t, u, c).Ok?
    ensures ComputeSourceIdentityHash(sha256, t, u, c) == ComputeSourceIdentityHash(sha256, t', u', c')
       <==> t == t' && u == u' && c == c'
  {
    hide Material;
    MaterialInjective(t, u, c, t', u', c');
  }

  // ---- What the material says ----

  /** The first `n` bytes of a text, and the rest; None where they end inside a character. */
  function TakeBytes(s: string, n: nat): Option<(string, string)>
  {
    if n == 0 then Some(("", s))
    else if s == "" || n < |BytesOf(s[0])| then None
    else
      var (taken, rest) :- TakeBytes(s[1..], n - |BytesOf(s[0])|);
      Some(([s[0]] + taken, rest))
  }

  /** A length in bytes, a colon, the field of that length, and the rest. */
  function ReadFrame(s: string): Option<(string, string)>
  {
    var k := Leading(s);
    if k == 0 || k == |s| || s[k] != ':' then None else TakeBytes(s[k + 1..], Value(s[..k]))
  }

  lemma {:induction false} TakesField(field: string, rest: string)
    ensures TakeBytes(field + rest, ByteLength(field)) == Some((field, rest))
  {
    if field == "" {
      assert field + rest == rest;
    } else {
      assert (field + rest)[1..] == field[1..] + rest;
      TakesField(field[1..], rest);
      assert field == [field[0]] + field[1..];
    }
  }

  lemma FrameReads(field: string, more: string)
    ensures ReadFrame(Framed(field, more)) == Some((field, more))
  {
    hide ByteLength, TakeBytes, Digits, Leading, Value;
    var n, tail := Digits(ByteLength(field)), ":" + (field + more);
    LeadingDigits(n, tail);
    ValueOfDigits(ByteLength(field));
    TakesField(field, more);
    assert (n + tail)[..|n|] == n && (n + tail)[|n|] == ':' && (n + tail)[|n| + 1..] == field + more;
  }

  /** The material reads as type, URL and a text of the configuration, in this order, between colons. */
  lemma MaterialReads(sourceType: string, sourceUrl: string, configuration: Json)
    ensures exists m1: string, m2: string, text: string ::
      && ReadFrame(Material(sourceType, sourceUrl, configuration)) == Some((sourceType, ":" + m1))
      && ReadFrame(m1) == Some((sourceUrl, ":" + m2)) && ReadFrame(m2) == Some((text, ""))
      && Parse(text) == Some(configuration)
  {
    hide ReadFrame, Framed, Parse, EncodeBy;
    var text := Configuration(configuration);
    var m2 := Framed(text, "");
    var m1 := Framed(sourceUrl, ":" + m2);
    FrameReads(sourceType, ":" + m1);
    FrameReads(sourceUrl, ":" + m2);
    FrameReads(text, "");
    ParseEncode(ListedKeys, configuration);
  }

  /** An array index is a number below 2^32 - 1 as it is printed. */
  lemma IndexExactly(k: string)
    ensures IsIndex(k) <==> exists n: nat :: n < 0xFFFF_FFFF && Digits(n) == k
  {
    if IsIndex(k) {
      DigitsOfValue(k);
    }
    if n: nat :| n < 0xFFFF_FFFF && Digits(n) == k {
      ValueOfDigits(n);
      NoLeadingZero(n);
    }
  }

  /** Members as they stand in a configuration's text, in this order of keys. */
  function Listed(fields: map<string, Json>, keys: seq<string>): string
    requires forall k :: k in keys ==> k in fields
  {
    if keys == [] then ""
    else
      var member := Quote(keys[0]) + ":" + Configuration(fields[keys[0]]);
      if |keys| == 1 then member else member + "," + Listed(fields, keys[1..])
  }

  lemma {:induction false} ListedIsEncoded(v: Json, keys: seq<string>)
    requires v.Obj? && forall k :: k in keys ==> k in v.fields
    ensures EncodeMembers(ListedKeys, v, keys) == Listed(v.fields, keys)
  {
    if keys != [] {
      hide Quote;
      ListedIsEncoded(v, keys[1..]);
    }
  }

  /** Of two keys the array index is listed first; of two indices the smaller, of two others that by code units. */
  ghost predicate Lists(a: string, b: string)
  {
    if IsIndex(a) && IsIndex(b) then Value(a) < Value(b)
    else IsIndex(a) || (!IsIndex(b) && Precedes(Units(a), Units(b)))
  }

  lemma ConfigurationObject(fields: map<string, Json>) returns (keys: seq<string>)
    ensures forall i, j :: 0 <= i < j < |keys| ==> Lists(keys[i], keys[j])
    ensures forall k :: k in keys <==> k in fields
    ensures Configuration(Obj(fields)) == "{" + Listed(fields, keys) + "}"
  {
    hide Precedes, Before, EncodeMembers, Listed, IsIndex;
    keys := ListedKeys(fields.Keys);
    ListedIsEncoded(Obj(fields), keys);
    forall i, j | 0 <= i < j < |keys|
      ensures Lists(keys[i], keys[j])
    {
      assert ListedBefore(keys[i], keys[j]);
      BeforeExactly(keys[i], keys[j]);
    }
  }
}
