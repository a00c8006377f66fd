/**
 JSON texts: the canonical encoder both halves of the verifier protocol share, and a parser that stands for
 `JSON.parse`. Numbers are the safe integers and strings are well-formed Unicode.
 */
module JsonText {
  import opened Wrappers
  import opened Sorting
  import opened Unicode
  import opened Decimal

  predicate IsSafe(n: int)
  {
    -0x1F_FFFF_FFFF_FFFF <= n <= 0x1F_FFFF_FFFF_FFFF
  }

  /** The integers a JavaScript number holds exactly. */
  type Safe = n: int | IsSafe(n)

  datatype Json =
    | Null
    | Bool(b: bool)
    | Num(n: Safe)
    | Str(s: string)
    | Arr(items: seq<Json>)
    | Obj(fields: map<string, Json>)

  predicate ExactKeys(v: Json, keys: set<string>)
  {
    v.Obj? && v.fields.Keys == keys
  }

  // ---- Printing ----

  /** One character of a JSON string (section 7 of RFC 8259, as section 3.2.2.2 of RFC 8785 fixes it). */
  function EscapeChar(c: char): string
  {
    if c == '\"' then "\\\""
    else if c == '\\' then "\\\\"
    else if c == '\U{8}' then "\\b"
    else if c == '\t' then "\\t"
    else if c == '\n' then "\\n"
    else if c == '\U{C}' then "\\f"
    else if c == '\r' then "\\r"
    else if c < ' ' then "\\u00" + [HexDigit(c as int / 16, 'a'), HexDigit(c as int % 16, 'a')]
    else [c]
  }

  function Escape(s: string): string
  {
    if s == "" then "" else EscapeChar(s[0]) + Escape(s[1..])
  }

  /** `JSON.stringify(s)` for a string. */
  function Quote(s: string): string
  {
    "\"" + Escape(s) + "\""
  }

  /** An encoder that prints the members of every object in the key order `keysOf`, with no white space. */
  function EncodeBy(keysOf: KeyOrder, v: Json): string
    requires Enumerates(keysOf)
    decreases v, 0
  {
    match v
    case Null => "null"
    case Bool(b) => if b then "true" else "false"
    case Num(n) => Print(n)
    case Str(s) => Quote(s)
    case Arr(items) => "[" + EncodeItems(keysOf, items) + "]"
    case Obj(fields) => "{" + EncodeMembers(keysOf, v, keysOf(fields.Keys)) + "}"
  }

  function EncodeItems(keysOf: KeyOrder, items: seq<Json>): string
    requires Enumerates(keysOf)
    decreases items, 0
  {
    if items == [] then ""
    else EncodeBy(keysOf, items[0]) + (if |items| == 1 then "" else "," + EncodeItems(keysOf, items[1..]))
  }

  function EncodeMember(keysOf: KeyOrder, v: Json, k: string): string
    requires Enumerates(keysOf)
    requires v.Obj? && k in v.fields
    decreases v, 0, 0, 0
  {
    Quote(k) + ":" + EncodeBy(keysOf, v.fields[k])
  }

  function EncodeMembers(keysOf: KeyOrder, v: Json, keys: seq<string>): string
    requires Enumerates(keysOf)
    requires v.Obj? && forall k :: k in keys ==> k in v.fields
    decreases v, 0, 0, 1, |keys|
  {
    if keys == [] then ""
    else
      EncodeMember(keysOf, v, keys[0])
      + (if |keys| == 1 then "" else "," + EncodeMembers(keysOf, v, keys[1..]))
  }

  /** `canonicalVerifierJson`: keys sorted by UTF-16 code units (section 3.2.3 of RFC 8785). */
  function Canonical(v: Json): string
  {
    EncodeBy(SortedKeys, v)
  }

  // ---- Parsing ----

  predicate IsSpace(c: char)
  {
    c == ' ' || c == '\t' || c == '\n' || c == '\r'
  }

  function SkipSpace(s: string): (r: string)
    ensures |r| <= |s|
  {
    if s != "" && IsSpace(s[0]) then SkipSpace(s[1..]) else s
  }

  function Hex2(s: string): (r: Option<nat>)
    requires |s| >= 2
    ensures r.Some? ==> r.value < 0x100
  {
    var a :- HexValue(s[0]);
    var b :- HexValue(s[1]);
    Some(a * 16 + b)
  }

  function Hex4(s: string): (r: Option<nat>)
    ensures r.Some? ==> r.value < 0x10000
  {
    if |s| < 4 then None
    else
      var a :- Hex2(s);
      var b :- Hex2(s[2..]);
      Some(a * 0x100 + b)
  }

  /** The escape sequence that follows a backslash: the character it stands for and the rest. */
  function Unescape(s: string): (r: Option<(char, string)>)
    ensures r.Some? ==> |r.value.1| < |s|
  {
    if s == "" then None
    else if s[0] == '\"' || s[0] == '\\' || s[0] == '/' then Some((s[0], s[1..]))
    else if s[0] == 'b' then Some(('\U{8}', s[1..]))
    else if s[0] == 'f' then Some(('\U{C}', s[1..]))
    else if s[0] == 'n' then Some(('\n', s[1..]))
    else if s[0] == 'r' then Some(('\r', s[1..]))
    else if s[0] == 't' then Some(('\t', s[1..]))
    else if s[0] != 'u' then None
    else
      var n :- Hex4(s[1..]);
      if n < 0xD800 || 0xE000 <= n then Some((n as char, s[5..]))
      else if 0xDC00 <= n || |s| < 7 || s[5..7] != "\\u" then None
      else
        var m :- Hex4(s[7..]);
        if m < 0xDC00 || 0xE000 <= m then None
        else Some(((0x10000 + (n - 0xD800) * 0x400 + (m - 0xDC00)) as char, s[11..]))
  }

  /** The characters of a string up to its closing quote, and the text after it. */
  function ParseChars(s: string): (r: Option<(string, string)>)
    ensures r.Some? ==> |r.value.1| < |s|
    decreases |s|
  {
    if s == "" || s[0] < ' ' then None
    else if s[0] == '\"' then Some(("", s[1..]))
    else
      var (c, rest) :- if s[0] == '\\' then Unescape(s[1..]) else Some((s[0], s[1..]));
      var (cs, rest') :- ParseChars(rest);
      Some(([c] + cs, rest'))
  }

  function Signed(negative: bool, n: int): int
  {
    if negative then -n else n
  }

  /** A character that would make a longer number of the digits before it; such numbers are not safe integers. */
  predicate ExtendsNumber(c: char)
  {
    c == '.' || c == 'e' || c == 'E'
  }

  function ParseDigits(negative: bool, t: string): (r: Option<(Json, string)>)
    ensures r.Some? ==> |r.value.1| < |t|
  {
    var k := Leading(t);
    if k == 0 || (t[0] == '0' && k > 1) || (k < |t| && ExtendsNumber(t[k])) then None
    else
      var n := Signed(negative, Value(t[..k]));
      if IsSafe(n) then Some((Num(n), t[k..])) else None
  }

  function ParseNumber(s: string): (r: Option<(Json, string)>)
    ensures r.Some? ==> |r.value.1| < |s|
  {
    if s != "" && s[0] == '-' then ParseDigits(true, s[1..]) else ParseDigits(false, s)
  }

  /** A value with the white space around it. */
  function ParseElement(s: string): (r: Option<(Json, string)>)
    ensures r.Some? ==> |r.value.1| < |s|
    decreases |s|, 1
  {
    var (v, rest) :- ParseValue(SkipSpace(s));
    Some((v, SkipSpace(rest)))
  }

  function ParseValue(s: string): (r: Option<(Json, string)>)
    ensures r.Some? ==> |r.value.1| < |s|
    decreases |s|, 0
  {
    if s == "" then None
    else if s[0] == '{' then
      var t := SkipSpace(s[1..]);
      if t != "" && t[0] == '}' then Some((Obj(map[]), t[1..])) else ParseMembers(t, map[])
    else if s[0] == '[' then
      var t := SkipSpace(s[1..]);
      if t != "" && t[0] == ']' then Some((Arr([]), t[1..]))
      else
        var (items, rest) :- ParseItems(t);
        Some((Arr(items), rest))
    else if s[0] == '\"' then
      var (cs, rest) :- ParseChars(s[1..]);
      Some((Str(cs), rest))
    else if s[0] == '-' || IsDigit(s[0]) then ParseNumber(s)
    else if "null" <= s then Some((Null, s[4..]))
    else if "true" <= s then Some((Bool(true), s[4..]))
    else if "false" <= s then Some((Bool(false), s[5..]))
    else None
  }

  function ParseItems(s: string): (r: Option<(seq<Json>, string)>)
    ensures r.Some? ==> |r.value.1| < |s|
    decreases |s|, 2
  {
    var (v, rest) :- ParseElement(s);
    if rest == "" then None
    else if rest[0] == ']' then Some(([v], rest[1..]))
    else if rest[0] != ',' then None
    else
      var (vs, rest') :- ParseItems(rest[1..]);
      Some(([v] + vs, rest'))
  }

  /** The members of an object after those collected in `acc`; a repeated key keeps its last value. */
  function ParseMembers(s: string, acc: map<string, Json>): (r: Option<(Json, string)>)
    ensures r.Some? ==> |r.value.1| < |s|
    decreases |s|, 2
  {
    var t := SkipSpace(s);
    if t == "" || t[0] != '\"' then None
    else
      var (k, afterKey) :- ParseChars(t[1..]);
      var u := SkipSpace(afterKey);
      if u == "" || u[0] != ':' then None
      else
        var (v, rest) :- ParseElement(u[1..]);
        if rest == "" then None
        else if rest[0] == '}' then Some((Obj(acc[k := v]), rest[1..]))
        else if rest[0] != ',' then None
        else ParseMembers(rest[1..], acc[k := v])
  }

  /** `JSON.parse(text)`; None where it throws. */
  function Parse(text: string): Option<Json>
  {
    var (v, rest) :- ParseElement(text);
    if rest == "" then Some(v) else None
  }

  /** The check both halves make on a body: parse it, encode the result again, compare with the body. */
  function ParseCanonical(text: string): (r: Option<Json>)
  {
    var v :- Parse(text);
    if Canonical(v) == text then Some(v) else None
  }
}
