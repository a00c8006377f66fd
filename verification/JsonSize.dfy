/** How many bytes an encoding takes: bounds that the limits on bodies are met with. */
module JsonSize {
  import opened Sorting
  import opened Unicode
  import opened Decimal
  import opened JsonText
  import Collections

  lemma EscapeCharBytes(c: char)
    ensures ByteLength(EscapeChar(c)) <= 6
  {
    var e := EscapeChar(c);
    if e == [c] {
      assert [c][1..] == "" && ByteLength("") == 0;
    } else {
      AsciiLengths(e);
    }
  }

  lemma {:induction false} EscapeBytes(s: string)
    ensures ByteLength(Escape(s)) <= 6 * |s|
  {
    if s != "" {
      EscapeCharBytes(s[0]);
      EscapeBytes(s[1..]);
      hide EscapeChar, ByteLength;
      ByteLengthConcat(EscapeChar(s[0]), Escape(s[1..]));
    } else {
      assert ByteLength("") == 0;
    }
  }

  /** A character takes at most six bytes, as itself or escaped. */
  lemma QuoteBytes(s: string)
    ensures ByteLength(Quote(s)) <= 6 * |s| + 2
  {
    hide Escape;
    EscapeBytes(s);
    AsciiLengths("\"");
    ByteLengthConcat("\"" + Escape(s), "\"");
    ByteLengthConcat("\"", Escape(s));
  }

  lemma MemberBytes(v: Json, k: string, size: nat)
    requires v.Obj? && k in v.fields && |k| <= 24 && ByteLength(Canonical(v.fields[k])) <= size
    ensures ByteLength(EncodeMember(SortedKeys, v, k)) <= 147 + size
  {
    hide Quote, EncodeBy;
    QuoteBytes(k);
    AsciiLengths(":");
    ByteLengthConcat(Quote(k) + ":", EncodeBy(SortedKeys, v.fields[k]));
    ByteLengthConcat(Quote(k), ":");
  }

  /** A member, a comma if another follows, and what follows. */
  lemma FollowedBytes(head: string, rest: string, last: bool)
    ensures ByteLength(head + (if last then "" else "," + rest)) <= ByteLength(head) + 1 + ByteLength(rest)
  {
    hide ByteLength;
    if last {
      assert head + "" == head;
    } else {
      AsciiLengths(",");
      ByteLengthConcat(",", rest);
      ByteLengthConcat(head, "," + rest);
    }
  }

  /** These members have short keys and bounded values. */
  ghost predicate Small(v: Json, keys: seq<string>, size: nat)
    requires v.Obj?
  {
    forall i :: 0 <= i < |keys| ==>
      keys[i] in v.fields && |keys[i]| <= 24 && ByteLength(Canonical(v.fields[keys[i]])) <= size
  }

  function Times(n: nat, each: nat): nat
  {
    if n == 0 then 0 else Times(n - 1, each) + each
  }

  lemma {:induction false} TimesIsProduct(n: nat, each: nat)
    ensures Times(n, each) == n * each
  {
    if n > 0 {
      TimesIsProduct(n - 1, each);
      assert (n - 1) * each + each == n * each;
    }
  }

  lemma SmallTail(v: Json, keys: seq<string>, size: nat)
    requires v.Obj? && Small(v, keys, size) && keys != []
    ensures Small(v, keys[1..], size)
  {
    hide ByteLength, Canonical;
  }

  lemma MembersText(v: Json, keys: seq<string>)
    requires v.Obj? && keys != [] && forall k :: k in keys ==> k in v.fields
    ensures forall k :: k in keys[1..] ==> k in v.fields
    ensures EncodeMembers(SortedKeys, v, keys)
         == EncodeMember(SortedKeys, v, keys[0])
            + (if |keys| == 1 then "" else "," + EncodeMembers(SortedKeys, v, keys[1..]))
  {
    hide EncodeMember;
  }

  lemma {:induction false} MembersBytes(v: Json, keys: seq<string>, size: nat)
    requires v.Obj? && (forall k :: k in keys ==> k in v.fields) && Small(v, keys, size)
    ensures ByteLength(EncodeMembers(SortedKeys, v, keys)) <= Times(|keys|, 148 + size)
  {
    if keys == [] {
      NoBytes();
    } else {
      hide EncodeMember, EncodeMembers, ByteLength, Canonical;
      MembersText(v, keys);
      MemberBytes(v, keys[0], size);
      SmallTail(v, keys, size);
      hide Small;
      MembersBytes(v, keys[1..], size);
      FollowedBytes(EncodeMember(SortedKeys, v, keys[0]), EncodeMembers(SortedKeys, v, keys[1..]), |keys| == 1);
    }
  }

  lemma NoBytes()
    ensures ByteLength("") == 0
  {
  }

  lemma KeyCount(keys: set<string>)
    ensures |SortedKeys(keys)| == |keys|
  {
    BeforeIsStrictTotal();
    hide Before;
    var s := SortedKeys(keys);
    assert Collections.Distinct(s);
    Collections.MembersSize(s);
    assert Collections.Members(s) == keys;
  }

  ghost predicate SmallMembers(v: Json, size: nat)
    requires v.Obj?
  {
    forall k :: k in v.fields ==> |k| <= 24 && ByteLength(Canonical(v.fields[k])) <= size
  }

  lemma SmallList(v: Json, keys: seq<string>, size: nat)
    requires v.Obj? && SmallMembers(v, size) && forall k :: k in keys ==> k in v.fields
    ensures Small(v, keys, size)
  {
    hide ByteLength, Canonical;
  }

  lemma ObjectText(v: Json)
    requires v.Obj?
    ensures forall k :: k in SortedKeys(v.fields.Keys) ==> k in v.fields
    ensures Canonical(v) == "{" + EncodeMembers(SortedKeys, v, SortedKeys(v.fields.Keys)) + "}"
  {
    hide EncodeMembers;
  }

  lemma BracedBytes(inner: string)
    ensures ByteLength("{" + inner + "}") == ByteLength(inner) + 2
  {
    hide ByteLength;
    AsciiLengths("{");
    AsciiLengths("}");
    ByteLengthConcat("{" + inner, "}");
    ByteLengthConcat("{", inner);
  }

  /** An object whose members have short keys and bounded values is bounded. */
  lemma ObjectBytes(v: Json, size: nat, n: nat)
    requires v.Obj? && |v.fields.Keys| == n && SmallMembers(v, size)
    ensures ByteLength(Canonical(v)) <= n * (148 + size) + 2
  {
    hide ByteLength, EncodeMembers, SortedKeys, Canonical, SmallMembers, Small, Times;
    var keys := SortedKeys(v.fields.Keys);
    ObjectText(v);
    KeyCount(v.fields.Keys);
    SmallList(v, keys, size);
    MembersBytes(v, keys, size);
    BracedBytes(EncodeMembers(SortedKeys, v, keys));
    TimesIsProduct(n, 148 + size);
  }

  lemma StringBytes(s: string, n: nat)
    requires |s| <= n
    ensures ByteLength(Canonical(Str(s))) <= 6 * n + 2
  {
    hide ByteLength, Quote;
    QuoteBytes(s);
  }

  lemma SmallNumberBytes(n: Safe)
    requires 0 <= n < 10
    ensures ByteLength(Canonical(Num(n))) == 1
  {
    AsciiLengths(Digits(n));
  }
}
