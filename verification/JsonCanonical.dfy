/**
 What the canonical text of a value is, said without the encoder: it is a shortest text of the value, its keys ascend
 by code units, and characters are escaped only where JSON asks for it, with lower-case digits.
 */
module JsonCanonical {
  import opened Wrappers
  import opened Sorting
  import opened Unicode
  import opened Decimal
  import opened JsonText
  import opened JsonRoundTrip
  import JsonSize
  import SourceIdentity
  import Collections

  // ---- Objects ----

  /** Members as they stand in a text, in this order of keys. */
  function Listed(fields: map<string, Json>, keys: seq<string>): string
    requires forall k :: k in keys ==> k in fields
  {
    if keys == [] then ""
    else
      var member := Quote(keys[0]) + ":" + Canonical(fields[keys[0]]);
      if |keys| == 1 then member else member + "," + Listed(fields, keys[1..])
  }

  lemma {:induction false} ListedIsEncoded(v: Json, keys: seq<string>)
    requires v.Obj? && forall k :: k in keys ==> k in v.fields
    ensures EncodeMembers(SortedKeys, v, keys) == Listed(v.fields, keys)
  {
    if keys != [] {
      hide Quote;
      ListedIsEncoded(v, keys[1..]);
    }
  }

  ghost predicate KeysAscend(keys: seq<string>)
  {
    forall i, j :: 0 <= i < j < |keys| ==> Precedes(Units(keys[i]), Units(keys[j]))
  }

  /** The keys of every object, each once, ascend by their UTF-16 code units. */
  lemma CanonicalObject(fields: map<string, Json>) returns (keys: seq<string>)
    ensures KeysAscend(keys)
    ensures forall k :: k in keys <==> k in fields
    ensures Canonical(Obj(fields)) == "{" + Listed(fields, keys) + "}"
  {
    hide Precedes, Before, EncodeMembers, Listed;
    var v := Obj(fields);
    keys := SortedKeys(fields.Keys);
    JsonSize.ObjectText(v);
    ListedIsEncoded(v, keys);
    forall i, j | 0 <= i < j < |keys|
      ensures Precedes(Units(keys[i]), Units(keys[j]))
    {
      BeforeExactly(keys[i], keys[j]);
    }
  }

  // ---- Strings ----

  lemma {:induction false} EscapeConcat(a: string, b: string)
    ensures Escape(a + b) == Escape(a) + Escape(b)
  {
    if a == "" {
      assert a + b == b;
    } else {
      assert (a + b)[1..] == a[1..] + b;
      EscapeConcat(a[1..], b);
      ConcatAssociative(EscapeChar(a[0]), Escape(a[1..]), Escape(b));
    }
  }

  /** A character stands for itself wherever JSON allows it, and else for its escape, with lower-case digits. */
  lemma CharacterEscaped(c: char)
    ensures ' ' <= c && c != '\"' && c != '\\' ==> EscapeChar(c) == [c]
    ensures c < ' ' || c == '\"' || c == '\\' ==>
      && (|EscapeChar(c)| == 2 || |EscapeChar(c)| == 6) && EscapeChar(c)[0] == '\\'
      && Unescape(EscapeChar(c)[1..]) == Some((c, ""))
  {
    EscapeCharParses(c, "");
    assert EscapeChar(c)[1..] + "" == EscapeChar(c)[1..];
  }

  lemma LowerDigits(c: char)
    requires |EscapeChar(c)| == 6
    ensures EscapeChar(c)[4] in "0123456789abcdef" && EscapeChar(c)[5] in "0123456789abcdef"
  {
    var digits := "0123456789abcdef";
    assert EscapeChar(c)[4] == HexDigit(c as int / 16, 'a') == digits[c as int / 16];
    assert EscapeChar(c)[5] == HexDigit(c as int % 16, 'a') == digits[c as int % 16];
  }

  lemma QuoteOfOne(c: char)
    ensures Quote([c]) == "\"" + EscapeChar(c) + "\""
  {
    hide EscapeChar;
    assert [c][1..] == "" && Escape([c]) == EscapeChar(c) + "" == EscapeChar(c);
  }

  /** A string is quoted character by character, between quotes. */
  lemma QuoteAppend(a: string, b: string)
    ensures Quote("") == "\"\"" && Quote(a + b) == Quote(a)[..|Quote(a)| - 1] + Quote(b)[1..]
  {
    EscapeConcat(a, b);
    hide Escape;
    assert Quote(a)[..|Quote(a)| - 1] == "\"" + Escape(a) && Quote(b)[1..] == Escape(b) + "\"";
    ConcatAssociative("\"" , Escape(a), Escape(b) + "\"");
    ConcatAssociative(Escape(a), Escape(b), "\"");
    EmptyEscape();
  }

  lemma EmptyEscape()
    ensures Escape("") == ""
  {
  }

  /** One character is quoted as itself wherever JSON allows it, and else as an escape, with lower-case digits. */
  lemma QuoteCharacter(c: char)
    ensures ' ' <= c && c != '\"' && c != '\\' ==> Quote([c]) == "\"" + [c] + "\""
    ensures c < ' ' || c == '\"' || c == '\\' ==>
      var q := Quote([c]);
      && (|q| == 4 || |q| == 8) && q[1] == '\\' && Unescape(q[2..|q| - 1]) == Some((c, ""))
      && (|q| == 8 ==> q[5] in "0123456789abcdef" && q[6] in "0123456789abcdef")
  {
    hide EscapeChar, Unescape, Quote;
    var e, q := EscapeChar(c), Quote([c]);
    QuoteOfOne(c);
    CharacterEscaped(c);
    if c < ' ' || c == '\"' || c == '\\' {
      assert q[2..|q| - 1] == e[1..];
    }
    if |e| == 6 {
      LowerDigits(c);
      assert q[5] == e[4] && q[6] == e[5];
    }
  }

  lemma EscapedShort(t: string)
    requires Unescape(t).Some?
    ensures |EscapeChar(Unescape(t).value.0)| <= 1 + |t| - |Unescape(t).value.1|
  {
    hide Hex2;
    var c := Unescape(t).value.0;
    if t[0] == '\"' || t[0] == '\\' || t[0] == '/' {
      assert c == t[0];
    } else if t[0] == 'b' || t[0] == 'f' || t[0] == 'n' || t[0] == 'r' || t[0] == 't' {
      assert |Unescape(t).value.1| == |t| - 1;
    }
  }

  /** No text of a string is shorter. */
  lemma {:induction false} CharsShortest(t: string)
    requires ParseChars(t).Some?
    ensures |Escape(ParseChars(t).value.0)| + 1 <= |t| - |ParseChars(t).value.1|
    decreases |t|
  {
    if t[0] != '\"' {
      var (c, rest) := if t[0] == '\\' then Unescape(t[1..]).value else (t[0], t[1..]);
      CharsShortest(rest);
      if t[0] == '\\' {
        EscapedShort(t[1..]);
      }
      hide EscapeChar, Unescape;
      var cs := ParseChars(rest).value.0;
      assert ([c] + cs)[1..] == cs;
    }
  }

  // ---- Numbers ----

  lemma NumberShortest(t: string)
    requires ParseNumber(t).Some?
    ensures ParseNumber(t).value.0.Num?
    ensures |Print(ParseNumber(t).value.0.n)| <= |t| - |ParseNumber(t).value.1|
  {
    var negative := t[0] == '-';
    var u := if negative then t[1..] else t;
    var k := Leading(u);
    SourceIdentity.DigitsOfValue(u[..k]);
    if Value(u[..k]) == 0 {
      assert Print(0) == Digits(0) && |Digits(0)| == 1;
    }
  }

  // ---- Sizes of objects ----

  /** What a member adds to an object: key, colon, value, and a comma or the closing brace. */
  function MemberSize(k: string, v: Json): nat
  {
    |Quote(k)| + |Canonical(v)| + 2
  }

  ghost function MembersSize(m: map<string, Json>): nat
  {
    if m == map[] then 0
    else
      var k :| k in m;
      MemberSize(k, m[k]) + MembersSize(m - {k})
  }

  lemma {:induction false} MembersSizeWithout(m: map<string, Json>, k: string)
    requires k in m
    ensures MembersSize(m) == MemberSize(k, m[k]) + MembersSize(m - {k})
  {
    hide MemberSize;
    var first :| first in m && MembersSize(m) == MemberSize(first, m[first]) + MembersSize(m - {first});
    if first != k {
      MembersSizeWithout(m - {first}, k);
      MembersSizeWithout(m - {k}, first);
      assert m - {first} - {k} == m - {k} - {first};
    }
  }

  lemma MembersSizeUpdate(m: map<string, Json>, k: string, v: Json)
    ensures MembersSize(m[k := v]) <= MembersSize(m) + MemberSize(k, v)
  {
    hide MemberSize, MembersSize;
    MembersSizeWithout(m[k := v], k);
    if k in m {
      MembersSizeWithout(m, k);
      assert m[k := v] - {k} == m - {k};
    } else {
      assert m[k := v] - {k} == m;
    }
  }

  lemma {:induction false} ListedSize(m: map<string, Json>, keys: seq<string>)
    requires m != map[] && Collections.Distinct(keys) && forall k :: k in keys <==> k in m
    ensures |Listed(m, keys)| + 1 == MembersSize(m)
  {
    hide Quote, Canonical;
    assert keys != [];
    var k := keys[0];
    MembersSizeWithout(m, k);
    var rest := m - {k};
    assert keys == [k] + keys[1..];
    if |keys| == 1 {
      assert rest == map[];
    } else {
      assert keys[1] in rest;
      ListedSize(rest, keys[1..]);
      ListedOther(m, rest, keys[1..]);
    }
  }

  lemma {:induction false} ListedOther(m: map<string, Json>, m': map<string, Json>, keys: seq<string>)
    requires forall k :: k in keys ==> k in m && k in m' && m[k] == m'[k]
    ensures Listed(m, keys) == Listed(m', keys)
  {
    if keys != [] {
      ListedOther(m, m', keys[1..]);
    }
  }

  lemma ObjectSize(m: map<string, Json>)
    ensures |Canonical(Obj(m))| == if m == map[] then 2 else 1 + MembersSize(m)
  {
    hide Listed, MembersSize, Canonical, Precedes;
    var keys := CanonicalObject(m);
    if m == map[] {
      ListedNone(m, keys);
    } else {
      AscendingDistinct(keys);
      ListedSize(m, keys);
    }
  }

  lemma ListedNone(m: map<string, Json>, keys: seq<string>)
    requires m == map[] && forall k :: k in keys <==> k in m
    ensures Listed(m, keys) == ""
  {
    assert forall i :: 0 <= i < |keys| ==> keys[i] in m;
  }

  lemma AscendingDistinct(keys: seq<string>)
    requires KeysAscend(keys)
    ensures Collections.Distinct(keys)
  {
    forall i, j | 0 <= i < j < |keys|
      ensures keys[i] != keys[j]
    {
      assert Precedes(Units(keys[i]), Units(keys[j]));
    }
  }

  // ---- Values ----

  lemma ItemsSize(items: seq<Json>)
    requires items != []
    ensures |Canonical(Arr(items))| == 1 + |EncodeItems(SortedKeys, items)| + 1
    ensures |EncodeItems(SortedKeys, items)| == |Canonical(items[0])|
      + if |items| == 1 then 0 else 1 + |EncodeItems(SortedKeys, items[1..])|
  {
  }

  lemma {:induction false} ItemsShortest(t: string)
    requires ParseItems(t).Some?
    ensures ParseItems(t).value.0 != []
    ensures |EncodeItems(SortedKeys, ParseItems(t).value.0)| + 1 <= |t| - |ParseItems(t).value.1|
    decreases |t|, 2
  {
    hide Canonical, EncodeItems, ParseElement;
    var (v, rest) := ParseElement(t).value;
    ElementShortest(t);
    if rest[0] == ']' {
      ItemsSize([v]);
    } else {
      ItemsShortest(rest[1..]);
      var vs := ParseItems(rest[1..]).value.0;
      ItemsSize([v] + vs);
      assert ([v] + vs)[1..] == vs;
    }
  }

  lemma {:induction false} MembersShortest(t: string, acc: map<string, Json>)
    requires ParseMembers(t, acc).Some?
    ensures ParseMembers(t, acc).value.0.Obj? && ParseMembers(t, acc).value.0.fields != map[]
    ensures MembersSize(ParseMembers(t, acc).value.0.fields)
      <= MembersSize(acc) + |t| - |ParseMembers(t, acc).value.1|
    decreases |t|, 2
  {
    hide Canonical, MembersSize, ParseElement, ParseChars;
    var u := SkipSpace(t);
    var (k, afterKey) := ParseChars(u[1..]).value;
    CharsShortest(u[1..]);
    var w := SkipSpace(afterKey);
    var (v, rest) := ParseElement(w[1..]).value;
    ElementShortest(w[1..]);
    MembersSizeUpdate(acc, k, v);
    assert k in acc[k := v];
    if rest[0] != '}' {
      MembersShortest(rest[1..], acc[k := v]);
    }
  }

  lemma {:induction false} ElementShortest(t: string)
    requires ParseElement(t).Some?
    ensures |Canonical(ParseElement(t).value.0)| <= |t| - |ParseElement(t).value.1|
    decreases |t|, 1
  {
    hide Canonical, ParseValue;
    ValueShortest(SkipSpace(t));
  }

  lemma {:induction false} ValueShortest(t: string)
    requires ParseValue(t).Some?
    ensures |Canonical(ParseValue(t).value.0)| <= |t| - |ParseValue(t).value.1|
    decreases |t|, 0
  {
    if t[0] == '{' {
      hide Canonical, MembersSize, ParseMembers;
      var u := SkipSpace(t[1..]);
      EmptySize();
      if u == "" || u[0] != '}' {
        MembersShortest(u, map[]);
      }
      ObjectSize(ParseValue(t).value.0.fields);
    } else if t[0] == '[' {
      hide ParseItems, EncodeItems;
      var u := SkipSpace(t[1..]);
      if u == "" || u[0] != ']' {
        ItemsShortest(u);
        ItemsSize(ParseItems(u).value.0);
      } else {
        EmptyArray();
      }
    } else if t[0] == '\"' {
      CharsShortest(t[1..]);
    } else if t[0] == '-' || IsDigit(t[0]) {
      NumberShortest(t);
    }
  }

  lemma EmptySize()
    ensures MembersSize(map[]) == 0
  {
  }

  lemma EmptyArray()
    ensures |Canonical(Arr([]))| == 2
  {
  }

  /** The canonical text of a value is as short as any text of it. */
  lemma CanonicalShortest(text: string, v: Json)
    requires Parse(text) == Some(v)
    ensures |Canonical(v)| <= |text|
  {
    hide Canonical, ParseElement;
    ElementShortest(text);
  }
}
