/** The ownership proof of a site: the text the control plane prints and the text the site's server parses. */
module Ownership {
  import opened Wrappers
  import opened Unicode
  import opened ReplayFile
  import opened Validation

  const MAX_CONTENT_LENGTH := 1024
  const MAX_CHALLENGE_TTL_MS := 900000
  const MAX_DATE := 8640000000000000

  /** The `new URL` test for an https origin, `toISOString` and `Date.parse`. */
  datatype Site = Site(httpsOrigin: string -> bool, iso: int -> string, parseDate: string -> Option<int>)

  /** Nothing in the text is removed, replaced or trimmed by the parser. */
  predicate Plain(s: string)
  {
    forall i :: 0 <= i < |s| ==> '!' <= s[i] <= '~' && s[i] != '\\'
  }

  /** What is assumed of the platform: origins and instants are plain text, and an instant is printed as it parses. */
  ghost predicate Sound(p: Site)
  {
    && (forall s :: p.httpsOrigin(s) ==> s != "" && Plain(s))
    && (forall t :: -MAX_DATE <= t <= MAX_DATE ==>
          p.iso(t) != "" && Plain(p.iso(t)) && p.parseDate(p.iso(t)) == Some(t))
    && (forall s :: p.parseDate(s).Some? ==> -MAX_DATE <= p.parseDate(s).value <= MAX_DATE)
  }

  predicate IsToken(s: string)
  {
    32 <= |s| <= 128 && forall i :: 0 <= i < |s| ==>
      'A' <= s[i] <= 'Z' || 'a' <= s[i] <= 'z' || '0' <= s[i] <= '9' || s[i] == '_' || s[i] == '-'
  }

  const TOKEN_KEY := "page2webmcp-verification="
  const ORIGIN_KEY := "origin="
  const EXPIRES_KEY := "expires="

  function Text(token: string, origin: string, expires: string): string
  {
    TOKEN_KEY + token + "\n" + ORIGIN_KEY + origin + "\n" + EXPIRES_KEY + expires + "\n"
  }

  /** The well-known text `ownershipState` prints for a pending challenge; None where it throws. */
  function WellKnownContent(p: Site, token: string, origin: string, expiresAt: string, now: int): Option<string>
  {
    if !IsToken(token) then None
    else
      match p.parseDate(expiresAt)
      case None => None
      case Some(t) =>
        if t <= now || t - now > MAX_CHALLENGE_TTL_MS then None
        else Some(Text(token, origin, p.iso(t)))
  }

  // ---- The parser ----

  /** `replace(/\\n/g, "\n")`: a backslash with an n becomes a line end. */
  function Unescape(s: string): string
  {
    if s == "" then ""
    else if |s| >= 2 && s[0] == '\\' && s[1] == 'n' then "\n" + Unescape(s[2..])
    else [s[0]] + Unescape(s[1..])
  }

  function DropReturns(s: string): string
  {
    if s == "" then "" else if s[0] == '\r' then DropReturns(s[1..]) else [s[0]] + DropReturns(s[1..])
  }

  /** `valueOf`; None for null and for a value that is empty. */
  function ValueOf(line: string, key: string): Option<string>
  {
    if key < line then Some(line[|key|..]) else None
  }

  predicate IsoInstant(p: Site, s: string)
  {
    p.parseDate(s).Some? && p.iso(p.parseDate(s).value) == s
  }

  predicate ValidProof(p: Site, token: string, origin: string, expires: string)
  {
    IsToken(token) && p.httpsOrigin(origin) && IsoInstant(p, expires)
  }

  /** `parseOwnershipVerification`; `raw` is the environment variable, None when it is not set. */
  function ParseOwnership(p: Site, raw: Option<string>): (r: Option<string>)
    ensures r.Some? ==> exists t, o, e :: ValidProof(p, t, o, e) && r.value == Text(t, o, e)
  {
    if raw.None? || raw.value == "" || Length(raw.value) > MAX_CONTENT_LENGTH then None
    else
      var lines := Split(TrimEnd(DropReturns(Unescape(raw.value))), '\n');
      if |lines| != 3 then None
      else
        var token :- ValueOf(lines[0], TOKEN_KEY);
        var origin :- ValueOf(lines[1], ORIGIN_KEY);
        var expires :- ValueOf(lines[2], EXPIRES_KEY);
        if ValidProof(p, token, origin, expires) then Some(Text(token, origin, expires)) else None
  }

  // ---- Printed texts parse back ----

  /** A line end as a dashboard may store it. */
  const LINE_ENDS := {"\n", "\\n", "\r\n", "\r\\n"}

  /** The printed text with its line ends stored in some way, the last one perhaps dropped. */
  function Stored(token: string, origin: string, expires: string, end1: string, end2: string, end3: string): string
  {
    (TOKEN_KEY + token) + (end1 + ((ORIGIN_KEY + origin) + (end2 + ((EXPIRES_KEY + expires) + end3))))
  }

  function Clean(s: string): string
  {
    DropReturns(Unescape(s))
  }

  lemma {:induction false} CleanPlain(a: string, rest: string)
    requires Plain(a)
    ensures Clean(a + rest) == a + Clean(rest)
  {
    if a == "" {
      assert a + rest == rest;
    } else {
      assert (a + rest)[1..] == a[1..] + rest;
      CleanPlain(a[1..], rest);
      var u := Unescape(a[1..] + rest);
      assert Unescape(a + rest) == [a[0]] + u;
      assert ([a[0]] + u)[1..] == u;
    }
  }

  lemma CleanEnd(end: string, rest: string)
    requires end in LINE_ENDS
    ensures Clean(end + rest) == "\n" + Clean(rest)
  {
    var u := Unescape(rest);
    assert ("\n" + u)[1..] == u && ("\r" + ("\n" + u))[1..] == "\n" + u;
    assert DropReturns("\n" + u) == "\n" + DropReturns(u);
    assert DropReturns("\r" + ("\n" + u)) == DropReturns("\n" + u);
    if end == "\n" {
      assert (end + rest)[1..] == rest;
    } else if end == "\\n" {
      assert (end + rest)[2..] == rest;
    } else if end == "\r\n" {
      assert (end + rest)[1..] == "\n" + rest && ("\n" + rest)[1..] == rest;
      assert Unescape(end + rest) == "\r" + ("\n" + u);
    } else {
      assert (end + rest)[1..] == "\\n" + rest && ("\\n" + rest)[2..] == rest;
      assert Unescape(end + rest) == "\r" + ("\n" + u);
    }
  }

  lemma TrimsLine(s: string, end: string)
    requires s != "" && !IsBlank(s[|s| - 1]) && (end == "" || end == "\n")
    ensures TrimEnd(s + end) == s
  {
    if end == "\n" {
      assert (s + end)[..|s + end| - 1] == s;
    } else {
      assert s + end == s;
    }
  }

  lemma PlainKept(key: string, value: string)
    requires Plain(key) && Plain(value)
    ensures Plain(key + value) && Without(key + value, '\n')
  {
  }

  lemma SplitThree(a: string, b: string, c: string)
    requires Without(a, '\n') && Without(b, '\n') && Without(c, '\n')
    ensures Split(a + ("\n" + (b + ("\n" + c))), '\n') == [a, b, c]
  {
    hide Split;
    SplitOnce(a, '\n', b + ("\n" + c));
    SplitOnce(b, '\n', c);
    SplitNone(c, '\n');
  }

  lemma CleanStored(a: string, b: string, c: string, end1: string, end2: string, end3: string)
    requires Plain(a) && Plain(b) && Plain(c)
    requires end1 in LINE_ENDS && end2 in LINE_ENDS && (end3 == "" || end3 in LINE_ENDS)
    ensures Clean(a + (end1 + (b + (end2 + (c + end3)))))
         == a + ("\n" + (b + ("\n" + (c + if end3 == "" then "" else "\n"))))
  {
    hide Clean;
    CleanPlain(a, end1 + (b + (end2 + (c + end3))));
    CleanEnd(end1, b + (end2 + (c + end3)));
    CleanPlain(b, end2 + (c + end3));
    CleanEnd(end2, c + end3);
    CleanPlain(c, end3);
    if end3 == "" {
      EmptyClean();
    } else {
      CleanEnd(end3, "");
      EmptyClean();
      assert end3 + "" == end3;
    }
  }

  lemma EmptyClean()
    ensures Clean("") == ""
  {
  }

  /**
   Every proof the control plane prints, its line ends literal or escaped, with or without carriage returns, with or
   without the last one, parses back to exactly the printed text when what is stored fits, and to nothing otherwise.
   */
  lemma StoredParses(p: Site, token: string, origin: string, expires: string, end1: string, end2: string, end3: string)
    requires Sound(p) && ValidProof(p, token, origin, expires)
    requires end1 in LINE_ENDS && end2 in LINE_ENDS && (end3 == "" || end3 in LINE_ENDS)
    ensures var raw := Stored(token, origin, expires, end1, end2, end3);
      ParseOwnership(p, Some(raw))
        == if Length(raw) <= MAX_CONTENT_LENGTH then Some(Text(token, origin, expires)) else None
  {
    hide Length, Split, TrimEnd, DropReturns, Unescape, Text, IsBlank;
    var raw := Stored(token, origin, expires, end1, end2, end3);
    StoredLines(p, token, origin, expires, end1, end2, end3);
    assert ValueOf(TOKEN_KEY + token, TOKEN_KEY) == Some(token);
    assert ValueOf(ORIGIN_KEY + origin, ORIGIN_KEY) == Some(origin);
    assert ValueOf(EXPIRES_KEY + expires, EXPIRES_KEY) == Some(expires);
  }

  lemma ProofPlain(p: Site, token: string, origin: string, expires: string)
    requires Sound(p) && ValidProof(p, token, origin, expires)
    ensures token != "" && Plain(token) && origin != "" && Plain(origin) && expires != "" && Plain(expires)
  {
    assert p.iso(p.parseDate(expires).value) == expires;
  }

  lemma KeysPlain()
    ensures Plain(TOKEN_KEY) && Plain(ORIGIN_KEY) && Plain(EXPIRES_KEY)
  {
  }

  lemma LastNotBlank(key: string, value: string)
    requires value != "" && Plain(value)
    ensures !IsBlank((key + value)[|key + value| - 1])
  {
    assert (key + value)[|key + value| - 1] == value[|value| - 1];
  }

  lemma StoredLines(p: Site, token: string, origin: string, expires: string, end1: string, end2: string, end3: string)
    requires Sound(p) && ValidProof(p, token, origin, expires)
    requires end1 in LINE_ENDS && end2 in LINE_ENDS && (end3 == "" || end3 in LINE_ENDS)
    ensures token != "" && origin != "" && expires != "" && Stored(token, origin, expires, end1, end2, end3) != ""
    ensures Split(TrimEnd(DropReturns(Unescape(Stored(token, origin, expires, end1, end2, end3)))), '\n')
         == [TOKEN_KEY + token, ORIGIN_KEY + origin, EXPIRES_KEY + expires]
  {
    hide Split, TrimEnd, DropReturns, Unescape, ValidProof, Sound, Plain;
    ProofPlain(p, token, origin, expires);
    var a, b, c := TOKEN_KEY + token, ORIGIN_KEY + origin, EXPIRES_KEY + expires;
    KeysPlain();
    PlainKept(TOKEN_KEY, token);
    PlainKept(ORIGIN_KEY, origin);
    PlainKept(EXPIRES_KEY, expires);
    CleanStored(a, b, c, end1, end2, end3);
    var s := a + ("\n" + (b + ("\n" + c)));
    var end := if end3 == "" then "" else "\n";
    assert a + ("\n" + (b + ("\n" + (c + end)))) == s + end;
    LastNotBlank(EXPIRES_KEY, expires);
    assert s[|s| - 1] == c[|c| - 1];
    TrimsLine(s, end);
    SplitThree(a, b, c);
  }

  /** What the control plane prints is a valid proof, whose two usual forms are among those that parse back. */
  lemma PrintedParses(p: Site, token: string, origin: string, expiresAt: string, now: int, end: string)
    requires Sound(p) && p.httpsOrigin(origin) && end in {"\n", "\\n"}
    requires WellKnownContent(p, token, origin, expiresAt, now).Some?
    ensures var text := WellKnownContent(p, token, origin, expiresAt, now).value;
      var raw := Stored(token, origin, p.iso(p.parseDate(expiresAt).value), end, end, end);
      && (end == "\n" ==> raw == text)
      && ParseOwnership(p, Some(raw)) == if Length(raw) <= MAX_CONTENT_LENGTH then Some(text) else None
  {
    hide Length, ParseOwnership, Plain, IsToken;
    var expires := p.iso(p.parseDate(expiresAt).value);
    assert IsoInstant(p, expires);
    StoredParses(p, token, origin, expires, end, end, end);
    StoredIsText(token, origin, expires);
  }

  lemma StoredIsText(token: string, origin: string, expires: string)
    ensures Stored(token, origin, expires, "\n", "\n", "\n") == Text(token, origin, expires)
  {
  }

  /** A parsed proof parses again as itself, unless adding the dropped last line end made it too long. */
  lemma ParsedParsesAgain(p: Site, raw: Option<string>)
    requires Sound(p) && ParseOwnership(p, raw).Some?
    ensures var text := ParseOwnership(p, raw).value;
      ParseOwnership(p, Some(text)) == if Length(text) <= MAX_CONTENT_LENGTH then Some(text) else None
  {
    hide ParseOwnership, ValidProof, Sound, Length, Stored, Text;
    var text := ParseOwnership(p, raw).value;
    var t, o, e :| ValidProof(p, t, o, e) && text == Text(t, o, e);
    StoredParses(p, t, o, e, "\n", "\n", "\n");
    StoredIsText(t, o, e);
  }

  // ---- What is printed and what is accepted, exactly ----

  /** `/^[A-Za-z0-9_-]{32,128}$/`, by character codes. */
  predicate ProperToken(s: string)
  {
    32 <= |s| <= 128 && forall i :: 0 <= i < |s| ==>
      var n := s[i] as int;
      0x41 <= n <= 0x5A || 0x61 <= n <= 0x7A || 0x30 <= n <= 0x39 || n == 0x5F || n == 0x2D
  }

  /** A challenge is printed exactly with a proper token, until it expires, at most fifteen minutes before. */
  lemma PrintsExactly(p: Site, token: string, origin: string, expiresAt: string, now: int)
    ensures WellKnownContent(p, token, origin, expiresAt, now) ==
      match p.parseDate(expiresAt)
      case None => None
      case Some(t) =>
        if ProperToken(token) && now < t <= now + 15 * 60 * 1000 then
          Some("page2webmcp-verification=" + token + "\n" + "origin=" + origin + "\n" + "expires=" + p.iso(t) + "\n")
        else None
  {
    assert IsToken(token) <==> ProperToken(token);
  }

  /** The three lines, without the last line end. */
  function Lines(token: string, origin: string, expires: string): string
  {
    (TOKEN_KEY + token) + ("\n" + ((ORIGIN_KEY + origin) + ("\n" + (EXPIRES_KEY + expires))))
  }

  /** What a stored text says once it is cleaned: three lines and then nothing but blanks. */
  ghost predicate Says(cleaned: string, token: string, origin: string, expires: string)
  {
    exists blanks: string :: Blank(blanks) && cleaned == Lines(token, origin, expires) + blanks
  }

  lemma ValueAfterKey(line: string, key: string, value: string)
    ensures ValueOf(line, key) == Some(value) <==> value != "" && line == key + value
  {
    if ValueOf(line, key) == Some(value) {
      assert line == line[..|key|] + line[|key|..] && line[..|key|] == key;
    }
    if value != "" && line == key + value {
      assert line[..|key|] == key && line[|key|..] == value && |line| > |key|;
    }
  }

  lemma ThreeLines(s: string, a: string, b: string, c: string)
    requires Split(s, '\n') == [a, b, c]
    ensures s == a + ("\n" + (b + ("\n" + c)))
  {
    hide Split;
    var rest := SplitFirst(s, '\n');
    var rest2 := SplitFirst(rest, '\n');
    var rest3 := SplitFirst(rest2, '\n');
  }

  /**
   A stored text is accepted exactly when it has at most 1024 units and says, once its escaped line ends are line ends
   and its returns are dropped, a valid proof in three lines and then nothing but blanks.
   */
  lemma ParsesExactly(p: Site, raw: string, text: string)
    requires Sound(p)
    ensures ParseOwnership(p, Some(raw)) == Some(text) <==>
      && |Units(raw)| <= 1024
      && exists token, origin, expires ::
           && ValidProof(p, token, origin, expires) && text == Text(token, origin, expires)
           && Says(Clean(raw), token, origin, expires)
  {
    hide Units, Split, TrimEnd, Clean, ValidProof, Sound, Text, Lines, Says, ValueOf;
    if ParseOwnership(p, Some(raw)) == Some(text) {
      AcceptedSays(p, raw, text);
    }
    if |Units(raw)| <= 1024 {
      if token, origin, expires :|
        && ValidProof(p, token, origin, expires) && text == Text(token, origin, expires)
        && Says(Clean(raw), token, origin, expires) {
        SaidAccepted(p, raw, token, origin, expires);
      }
    }
  }

  /** Cleaning reads a text once: an escaped line end is a line end, a return is dropped, the rest stays. */
  lemma CleanStep(s: string)
    ensures Clean(s) ==
      if |s| == 0 then ""
      else if |s| >= 2 && s[..2] == "\\n" then "\n" + Clean(s[2..])
      else if s[0] == '\r' then Clean(s[1..])
      else [s[0]] + Clean(s[1..])
  {
    if s != "" {
      if |s| >= 2 && s[..2] == "\\n" {
        assert s[0] == s[..2][0] && s[1] == s[..2][1];
        assert ("\n" + Unescape(s[2..]))[1..] == Unescape(s[2..]);
      } else {
        assert |s| >= 2 ==> s[..2] == [s[0], s[1]];
        assert ([s[0]] + Unescape(s[1..]))[1..] == Unescape(s[1..]);
      }
    }
  }

  lemma AcceptedSays(p: Site, raw: string, text: string)
    requires ParseOwnership(p, Some(raw)) == Some(text)
    ensures |Units(raw)| <= 1024
    ensures exists token, origin, expires ::
      && ValidProof(p, token, origin, expires) && text == Text(token, origin, expires)
      && Says(Clean(raw), token, origin, expires)
  {
    hide Units, Split, TrimEnd, DropReturns, Unescape, ValidProof, Text, ValueOf, Blank;
    var cleaned := Clean(raw);
    var blanks := TrimEndExactly(cleaned);
    var lines := Split(TrimEnd(cleaned), '\n');
    var token, origin, expires := ValueOf(lines[0], TOKEN_KEY).value, ValueOf(lines[1], ORIGIN_KEY).value,
      ValueOf(lines[2], EXPIRES_KEY).value;
    ValueAfterKey(lines[0], TOKEN_KEY, token);
    ValueAfterKey(lines[1], ORIGIN_KEY, origin);
    ValueAfterKey(lines[2], EXPIRES_KEY, expires);
    ThreeLines(TrimEnd(cleaned), lines[0], lines[1], lines[2]);
    assert Says(cleaned, token, origin, expires);
  }

  lemma SaidAccepted(p: Site, raw: string, token: string, origin: string, expires: string)
    requires Sound(p) && |Units(raw)| <= 1024 && ValidProof(p, token, origin, expires)
    requires Says(Clean(raw), token, origin, expires)
    ensures ParseOwnership(p, Some(raw)) == Some(Text(token, origin, expires))
  {
    hide Units, Split, TrimEnd, DropReturns, Unescape, ValidProof, Sound, Text, ValueOf, Blank, Plain, IsBlank;
    var cleaned := Clean(raw);
    var blanks: string :| Blank(blanks) && cleaned == Lines(token, origin, expires) + blanks;
    var a, b, c := TOKEN_KEY + token, ORIGIN_KEY + origin, EXPIRES_KEY + expires;
    ProofPlain(p, token, origin, expires);
    KeysPlain();
    PlainKept(TOKEN_KEY, token);
    PlainKept(ORIGIN_KEY, origin);
    PlainKept(EXPIRES_KEY, expires);
    LastNotBlank(EXPIRES_KEY, expires);
    var s := Lines(token, origin, expires);
    assert s[|s| - 1] == c[|c| - 1];
    TrimEndSkips(s, blanks);
    SplitThree(a, b, c);
    ValueAfterKey(a, TOKEN_KEY, token);
    ValueAfterKey(b, ORIGIN_KEY, origin);
    ValueAfterKey(c, EXPIRES_KEY, expires);
    EmptyClean();
    assert |cleaned| > 0;
  }
}
