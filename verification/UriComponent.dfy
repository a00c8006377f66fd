/** `encodeURIComponent` and `decodeURIComponent` on well-formed Unicode strings. */
module UriComponent {
  import opened Wrappers
  import opened Unicode
  import opened Decimal

  /** The characters `encodeURIComponent` leaves alone. */
  predicate Unreserved(c: char)
  {
    'A' <= c <= 'Z' || 'a' <= c <= 'z' || '0' <= c <= '9'
    || c == '-' || c == '_' || c == '.' || c == '!' || c == '~' || c == '*' || c == '\'' || c == '(' || c == ')'
  }

  function Percent(b: Byte): (s: string)
  {
    ['%', HexDigit(b / 16, 'A'), HexDigit(b % 16, 'A')]
  }

  function PercentAll(bytes: seq<Byte>): string
  {
    if bytes == [] then "" else Percent(bytes[0]) + PercentAll(bytes[1..])
  }

  function EncodeChar(c: char): string
  {
    if Unreserved(c) then [c] else PercentAll(BytesOf(c))
  }

  function Encode(s: string): string
  {
    if s == "" then "" else EncodeChar(s[0]) + Encode(s[1..])
  }

  /** The byte of a percent escape, and the rest. */
  function ReadByte(s: string): (r: Option<(int, string)>)
    ensures r.Some? ==> |r.value.1| < |s|
  {
    if |s| < 3 || s[0] != '%' then None
    else
      var h :- HexValue(s[1]);
      var l :- HexValue(s[2]);
      Some((h * 16 + l, s[3..]))
  }

  /** A continuation byte appended to the bits read so far. */
  function ReadContinuation(bits: int, s: string): (r: Option<(int, string)>)
    ensures r.Some? ==> |r.value.1| < |s|
  {
    var (b, rest) :- ReadByte(s);
    if 0x80 <= b < 0xC0 then Some((bits * 0x40 + (b - 0x80), rest)) else None
  }

  /** One character written as the percent escapes of its UTF-8 bytes; overlong forms and surrogates are refused. */
  function ReadEscaped(s: string): (r: Option<(char, string)>)
    ensures r.Some? ==> |r.value.1| < |s|
  {
    var (b, rest) :- ReadByte(s);
    if 0 <= b < 0x80 then Some((b as char, rest))
    else if 0xC0 <= b < 0xE0 then
      var (n, rest1) :- ReadContinuation(b - 0xC0, rest);
      if 0x80 <= n < 0x800 then Some((n as char, rest1)) else None
    else if 0xE0 <= b < 0xF0 then
      var (m, rest1) :- ReadContinuation(b - 0xE0, rest);
      var (n, rest2) :- ReadContinuation(m, rest1);
      if 0x800 <= n < 0xD800 || 0xE000 <= n < 0x10000 then Some((n as char, rest2)) else None
    else if 0xF0 <= b < 0xF8 then
      var (l, rest1) :- ReadContinuation(b - 0xF0, rest);
      var (m, rest2) :- ReadContinuation(l, rest1);
      var (n, rest3) :- ReadContinuation(m, rest2);
      if 0x10000 <= n < 0x110000 then Some((n as char, rest3)) else None
    else None
  }

  /** None where `decodeURIComponent` throws. */
  function Decode(s: string): Option<string>
    decreases |s|
  {
    if s == "" then Some("")
    else
      var (c, rest) :- if s[0] == '%' then ReadEscaped(s) else Some((s[0], s[1..]));
      var cs :- Decode(rest);
      Some([c] + cs)
  }

  // ---- Properties ----

  lemma ReadPercent(b: Byte, rest: string)
    ensures ReadByte(Percent(b) + rest) == Some((b, rest))
  {
    var s := Percent(b) + rest;
    var h, l := b / 16, b % 16;
    assert s[1] == HexDigit(h, 'A') && s[2] == HexDigit(l, 'A') && s[3..] == rest;
    assert HexValue(HexDigit(h, 'A')) == Some(h) && HexValue(HexDigit(l, 'A')) == Some(l);
  }

  /** The percent escapes of some bytes, before a rest. */
  function Escaped(bytes: seq<Byte>, rest: string): string
  {
    if bytes == [] then rest else Percent(bytes[0]) + Escaped(bytes[1..], rest)
  }

  lemma {:induction false} EscapedIsPercentAll(bytes: seq<Byte>, rest: string)
    ensures PercentAll(bytes) + rest == Escaped(bytes, rest)
  {
    if bytes == [] {
      assert "" + rest == rest;
    } else {
      EscapedIsPercentAll(bytes[1..], rest);
      ConcatAssociative(Percent(bytes[0]), PercentAll(bytes[1..]), rest);
    }
  }

  /** The first byte of some escapes, and what stands after it. */
  lemma ReadFirst(bytes: seq<Byte>, rest: string)
    requires bytes != []
    ensures ReadByte(Escaped(bytes, rest)) == Some((bytes[0], Escaped(bytes[1..], rest)))
  {
    ReadPercent(bytes[0], Escaped(bytes[1..], rest));
  }

  /** A continuation byte gives back the bits that were split off. */
  lemma ReadTrail(n: nat, bytes: seq<Byte>, rest: string)
    requires bytes != [] && bytes[0] == Trail(n)
    ensures ReadContinuation(n / 0x40, Escaped(bytes, rest)) == Some((n, Escaped(bytes[1..], rest)))
  {
    ReadFirst(bytes, rest);
  }

  lemma ReadTwoBytes(c: char, rest: string)
    requires 0x80 <= c as int < 0x800
    ensures ReadEscaped(Escaped(BytesOf(c), rest)) == Some((c, rest))
  {
    var b := BytesOf(c);
    ReadFirst(b, rest);
    ReadTrail(c as int, b[1..], rest);
  }

  lemma ReadThreeBytes(c: char, rest: string)
    requires 0x800 <= c as int < 0x10000
    ensures ReadEscaped(Escaped(BytesOf(c), rest)) == Some((c, rest))
  {
    var b := BytesOf(c);
    ReadFirst(b, rest);
    ReadTrail(c as int / 0x40, b[1..], rest);
    ReadTrail(c as int, b[1..][1..], rest);
  }

  lemma ReadFourBytes(c: char, rest: string)
    requires 0x10000 <= c as int
    ensures ReadEscaped(Escaped(BytesOf(c), rest)) == Some((c, rest))
  {
    var b := BytesOf(c);
    ReadFirst(b, rest);
    ReadTrail(c as int / 0x40 / 0x40, b[1..], rest);
    ReadTrail(c as int / 0x40, b[1..][1..], rest);
    ReadTrail(c as int, b[1..][1..][1..], rest);
  }

  lemma ReadEscapedChar(c: char, rest: string)
    ensures ReadEscaped(Escaped(BytesOf(c), rest)) == Some((c, rest))
  {
    if c as int < 0x80 {
      ReadFirst(BytesOf(c), rest);
    } else if c as int < 0x800 {
      ReadTwoBytes(c, rest);
    } else if c as int < 0x10000 {
      ReadThreeBytes(c, rest);
    } else {
      ReadFourBytes(c, rest);
    }
  }

  /** Decoding inverts encoding on every string. */
  lemma {:induction false} DecodeEncode(s: string)
    ensures Decode(Encode(s)) == Some(s)
  {
    if s != "" {
      DecodeEncode(s[1..]);
      var text := Encode(s);
      if Unreserved(s[0]) {
        assert text[0] == s[0] && text[1..] == Encode(s[1..]);
      } else {
        assert text[0] == '%';
        EscapedIsPercentAll(BytesOf(s[0]), Encode(s[1..]));
        ReadEscapedChar(s[0], Encode(s[1..]));
      }
      assert s == [s[0]] + s[1..];
    }
  }

  lemma EncodeInjective(s: string, t: string)
    ensures Encode(s) == Encode(t) <==> s == t
  {
    DecodeEncode(s);
    DecodeEncode(t);
  }

  predicate Plain(s: string)
  {
    forall i :: 0 <= i < |s| ==> s[i] == '%' || Unreserved(s[i])
  }

  lemma {:induction false} PercentAllPlain(bytes: seq<Byte>)
    ensures Plain(PercentAll(bytes)) && |PercentAll(bytes)| == 3 * |bytes|
  {
    if bytes != [] {
      PercentAllPlain(bytes[1..]);
    }
  }

  /** An encoded key is ASCII without blanks or line ends, and is empty only for the empty key. */
  lemma {:induction false} EncodePlain(s: string)
    ensures Plain(Encode(s))
    ensures |s| <= |Encode(s)|
    ensures Ascii(Encode(s))
  {
    if s != "" {
      PercentAllPlain(BytesOf(s[0]));
      EncodePlain(s[1..]);
    }
  }

  // ---- What is encoded, and how ----

  lemma {:induction false} EncodeConcat(a: string, b: string)
    ensures Encode(a + b) == Encode(a) + Encode(b)
  {
    if a == "" {
      assert a + b == b;
    } else {
      assert (a + b)[1..] == a[1..] + b;
      EncodeConcat(a[1..], b);
      ConcatAssociative(EncodeChar(a[0]), Encode(a[1..]), Encode(b));
    }
  }

  /** A percent sign and two upper-case hexadecimal digits, any number of times. */
  predicate Escapes(s: string)
  {
    s == "" || (
      && |s| >= 3 && s[0] == '%' && UpperHex(s[1]) && UpperHex(s[2]) && Escapes(s[3..]))
  }

  predicate UpperHex(c: char)
  {
    0x30 <= c as int <= 0x39 || 0x41 <= c as int <= 0x46
  }

  lemma {:induction false} PercentEscapes(bytes: seq<Byte>)
    ensures Escapes(PercentAll(bytes))
  {
    if bytes != [] {
      PercentEscapes(bytes[1..]);
      assert PercentAll(bytes)[3..] == PercentAll(bytes[1..]);
    }
  }

  /** Letters, digits and nine marks stand for themselves (section 19.2.6.4 of ECMA-262); all else is escaped. */
  lemma EncodeCharacter(c: char)
    ensures var n := c as int;
      var plain := 0x41 <= n <= 0x5A || 0x61 <= n <= 0x7A || 0x30 <= n <= 0x39
        || n in {0x21, 0x27, 0x28, 0x29, 0x2A, 0x2D, 0x2E, 0x5F, 0x7E};
      if plain then Encode([c]) == [c] else Escapes(Encode([c])) && Decode(Encode([c])) == Some([c])
  {
    assert [c][1..] == "" && Encode([c]) == EncodeChar(c) + "" == EncodeChar(c);
    PercentEscapes(BytesOf(c));
    DecodeEncode([c]);
  }
}
