/**
 What the two halves of the release verifier protocol v2 share: the shapes of identifiers, and the envelopes of
 requests and attestations as JSON.
 */
module VerifierEnvelope {
  import opened Wrappers
  import opened Unicode
  import opened JsonText

  const MAX_REQUEST_BYTES := 160 * 1024
  const MAX_RESPONSE_BYTES := 64 * 1024
  const REQUEST_LIFETIME_MS := 60000
  const MAX_LIFETIME_MS := 120000
  const OPERATIONS := {"readiness", "candidate", "installation"}
  const ENVIRONMENTS := {"test", "staging", "production"}

  /**
   The functions the protocol takes from its platform: SHA-256 in hexadecimal, `toISOString` and `Date.parse`, the
   two `new URL` tests, and the token both halves hold. Nothing is assumed of the hash but the form of its output.
   */
  datatype Platform = Platform(
    sha256: string -> string,
    iso: int -> string,
    parseDate: string -> Option<int>,
    httpsOrigin: string -> bool,
    httpsPage: (string, string) -> bool,
    token: string)

  predicate LowerHex(c: char)
  {
    '0' <= c <= '9' || 'a' <= c <= 'f'
  }

  predicate IsHash(s: string)
  {
    |s| == 64 && forall i :: 0 <= i < |s| ==> LowerHex(s[i])
  }

  predicate IsUuidV4(s: string)
  {
    && |s| == 36
    && s[14] == '4'
    && s[19] in "89ab"
    && forall i :: 0 <= i < |s| ==> if i in {8, 13, 18, 23} then s[i] == '-' else LowerHex(s[i])
  }

  predicate Base64UrlChar(c: char)
  {
    'A' <= c <= 'Z' || 'a' <= c <= 'z' || '0' <= c <= '9' || c == '_' || c == '-'
  }

  predicate IsNonce(s: string)
  {
    |s| == 43 && forall i :: 0 <= i < |s| ==> Base64UrlChar(s[i])
  }

  /** The form of `toISOString` for the years 0000 to 9999. */
  predicate IsTimestamp(s: string)
  {
    && |s| == 24
    && forall i :: 0 <= i < |s| ==>
         if i in {4, 7} then s[i] == '-'
         else if i == 10 then s[i] == 'T'
         else if i in {13, 16} then s[i] == ':'
         else if i == 19 then s[i] == '.'
         else if i == 23 then s[i] == 'Z'
         else '0' <= s[i] <= '9'
  }

  /** The instants whose year has four digits. */
  predicate FourDigitYear(ms: int)
  {
    -62167219200000 <= ms <= 253402300799999
  }

  /** What is assumed of the platform. */
  ghost predicate Sound(p: Platform)
  {
    && (forall s :: IsHash(p.sha256(s)))
    && (forall t :: FourDigitYear(t) ==> IsTimestamp(p.iso(t)) && p.parseDate(p.iso(t)) == Some(t))
    && (forall s :: IsTimestamp(s) && p.parseDate(s).Some? && p.iso(p.parseDate(s).value) == s ==>
          FourDigitYear(p.parseDate(s).value))
  }

  /** A check that passes, fails, or throws: `toISOString` throws on a date that does not exist. */
  datatype Check = Pass | Fail | Throw

  function ValidTimestamp(p: Platform, v: Json): Check
  {
    if !v.Str? || !IsTimestamp(v.s) then Fail
    else
      match p.parseDate(v.s)
      case None => Throw
      case Some(t) => if p.iso(t) == v.s then Pass else Fail
  }

  /** `Date.parse` of a timestamp that has been checked. */
  function DateOf(p: Platform, s: string): int
  {
    match p.parseDate(s)
    case Some(t) => t
    case None => 0
  }

  lemma PrintedTimestampValid(p: Platform, t: int)
    requires Sound(p) && FourDigitYear(t)
    ensures ValidTimestamp(p, Str(p.iso(t))) == Pass && DateOf(p, p.iso(t)) == t
  {
  }

  function And(a: Check, b: Check): Check
  {
    if a == Pass then b else a
  }

  predicate HashField(v: Json)
  {
    v.Str? && IsHash(v.s)
  }

  predicate UuidField(v: Json)
  {
    v.Str? && IsUuidV4(v.s)
  }

  predicate ExactOrigin(p: Platform, s: string)
  {
    Length(s) <= 2048 && p.httpsOrigin(s)
  }

  predicate ExactPage(p: Platform, s: string, origin: string)
  {
    Length(s) <= 4096 && p.httpsPage(s, origin)
  }

  // ---- Envelopes ----

  datatype Request = Request(
    requestId: string, nonce: string, operation: string, issuedAt: string, expiresAt: string,
    scope: Json, scopeDigest: string, payload: Json, payloadDigest: string)

  const REQUEST_KEYS := {
    "expiresAt", "issuedAt", "nonce", "operation", "payload", "payloadDigest",
    "protocolVersion", "requestId", "schema", "scope", "scopeDigest"}

  function RequestJson(r: Request): Json
  {
    Obj(map[
      "schema" := Str("ReleaseVerifierRequestV2"),
      "protocolVersion" := Num(2),
      "requestId" := Str(r.requestId),
      "nonce" := Str(r.nonce),
      "operation" := Str(r.operation),
      "issuedAt" := Str(r.issuedAt),
      "expiresAt" := Str(r.expiresAt),
      "scope" := r.scope,
      "scopeDigest" := Str(r.scopeDigest),
      "payload" := r.payload,
      "payloadDigest" := Str(r.payloadDigest)])
  }

  datatype Attestation = Attestation(
    attestationId: string, requestId: string, nonceDigest: string, operation: string,
    scopeDigest: string, payloadDigest: string, issuedAt: string, expiresAt: string, attestedAt: string)

  const ATTESTATION_KEYS := {
    "attestationId", "attestedAt", "expiresAt", "issuedAt", "nonceDigest", "operation",
    "payloadDigest", "protocolVersion", "report", "requestId", "schema", "scopeDigest"}

  function AttestationJson(a: Attestation, report: Json): Json
  {
    Obj(map[
      "schema" := Str("ReleaseVerifierAttestationV2"),
      "protocolVersion" := Num(2),
      "attestationId" := Str(a.attestationId),
      "requestId" := Str(a.requestId),
      "nonceDigest" := Str(a.nonceDigest),
      "operation" := Str(a.operation),
      "scopeDigest" := Str(a.scopeDigest),
      "payloadDigest" := Str(a.payloadDigest),
      "issuedAt" := Str(a.issuedAt),
      "expiresAt" := Str(a.expiresAt),
      "attestedAt" := Str(a.attestedAt),
      "report" := report])
  }

  /** The client's record of a request it sent. */
  datatype Context = Context(
    requestId: string, nonceDigest: string, operation: string, scopeDigest: string, payloadDigest: string,
    issuedAt: string, expiresAt: string)

  lemma RequestFields(r: Request)
    ensures ExactKeys(RequestJson(r), REQUEST_KEYS)
    ensures var f := RequestJson(r).fields;
      && f["schema"] == Str("ReleaseVerifierRequestV2") && f["protocolVersion"] == Num(2)
      && f["requestId"] == Str(r.requestId) && f["nonce"] == Str(r.nonce) && f["operation"] == Str(r.operation)
      && f["issuedAt"] == Str(r.issuedAt) && f["expiresAt"] == Str(r.expiresAt)
      && f["scope"] == r.scope && f["scopeDigest"] == Str(r.scopeDigest)
      && f["payload"] == r.payload && f["payloadDigest"] == Str(r.payloadDigest)
  {
  }

  lemma AttestationFields(a: Attestation, report: Json)
    ensures ExactKeys(AttestationJson(a, report), ATTESTATION_KEYS)
    ensures var f := AttestationJson(a, report).fields;
      && f["schema"] == Str("ReleaseVerifierAttestationV2") && f["protocolVersion"] == Num(2)
      && f["attestationId"] == Str(a.attestationId) && f["requestId"] == Str(a.requestId)
      && f["nonceDigest"] == Str(a.nonceDigest) && f["operation"] == Str(a.operation)
      && f["scopeDigest"] == Str(a.scopeDigest) && f["payloadDigest"] == Str(a.payloadDigest)
      && f["issuedAt"] == Str(a.issuedAt) && f["expiresAt"] == Str(a.expiresAt)
      && f["attestedAt"] == Str(a.attestedAt) && f["report"] == report
  {
  }

  // ---- base64url ----

  function Base64UrlDigit(d: int): (c: char)
    requires 0 <= d < 64
    ensures Base64UrlChar(c)
  {
    if d < 26 then ('A' as int + d) as char
    else if d < 52 then ('a' as int + d - 26) as char
    else if d < 62 then ('0' as int + d - 52) as char
    else if d == 62 then '-' else '_'
  }

  /** `toString("base64url")`: no padding (section 5 of RFC 4648). */
  function Base64Url(bytes: seq<Byte>): (s: string)
    ensures |s| == (4 * |bytes| + 2) / 3
    ensures forall i :: 0 <= i < |s| ==> Base64UrlChar(s[i])
  {
    if |bytes| == 0 then ""
    else if |bytes| == 1 then [Base64UrlDigit(bytes[0] / 4), Base64UrlDigit(bytes[0] % 4 * 16)]
    else if |bytes| == 2 then
      [Base64UrlDigit(bytes[0] / 4), Base64UrlDigit(bytes[0] % 4 * 16 + bytes[1] / 16),
       Base64UrlDigit(bytes[1] % 16 * 4)]
    else
      [Base64UrlDigit(bytes[0] / 4), Base64UrlDigit(bytes[0] % 4 * 16 + bytes[1] / 16),
       Base64UrlDigit(bytes[1] % 16 * 4 + bytes[2] / 64), Base64UrlDigit(bytes[2] % 64)]
      + Base64Url(bytes[3..])
  }

  /** The six bits a character stands for (table 2 of RFC 4648). */
  function Sextet(c: char): (r: Option<int>)
    ensures r.Some? ==> 0 <= r.value < 64
  {
    if 'A' <= c <= 'Z' then Some(c as int - 'A' as int)
    else if 'a' <= c <= 'z' then Some(26 + (c as int - 'a' as int))
    else if '0' <= c <= '9' then Some(52 + (c as int - '0' as int))
    else if c == '-' then Some(62)
    else if c == '_' then Some(63)
    else None
  }

  /** The bytes of a base64url text; None where bits are left over or a character is not of the alphabet. */
  function FromBase64Url(s: string): (r: Option<seq<Byte>>)
  {
    if s == "" then Some([])
    else if |s| == 1 then None
    else
      var a :- Sextet(s[0]);
      var b :- Sextet(s[1]);
      var first: Byte := a * 4 + b / 16;
      if |s| == 2 then (if b % 16 == 0 then Some([first]) else None)
      else
        var c :- Sextet(s[2]);
        var second: Byte := b % 16 * 16 + c / 4;
        if |s| == 3 then (if c % 4 == 0 then Some([first, second]) else None)
        else
          var d :- Sextet(s[3]);
          var rest :- FromBase64Url(s[4..]);
          Some([first, second, c % 4 * 64 + d] + rest)
  }

  lemma DigitStandsFor(d: nat)
    requires d < 64
    ensures Sextet(Base64UrlDigit(d)) == Some(d)
  {
  }

  /** The characters of some bytes stand for those bytes. */
  lemma {:induction false} Base64UrlRoundTrip(bytes: seq<Byte>)
    ensures FromBase64Url(Base64Url(bytes)) == Some(bytes)
  {
    hide Sextet, Base64UrlDigit;
    if |bytes| >= 3 {
      Base64UrlRoundTrip(bytes[3..]);
      FullGroup(bytes);
    } else if bytes != [] {
      DigitStandsFor(bytes[0] / 4);
      if |bytes| == 1 {
        DigitStandsFor(bytes[0] % 4 * 16);
        assert bytes == [bytes[0]];
      } else {
        DigitStandsFor(bytes[0] % 4 * 16 + bytes[1] / 16);
        DigitStandsFor(bytes[1] % 16 * 4);
        assert bytes == [bytes[0], bytes[1]];
      }
    }
  }

  lemma GroupBits(x: Byte, y: Byte, z: Byte)
    ensures x / 4 * 4 + (x % 4 * 16 + y / 16) / 16 == x
    ensures (x % 4 * 16 + y / 16) % 16 * 16 + (y % 16 * 4 + z / 64) / 4 == y
    ensures (y % 16 * 4 + z / 64) % 4 * 64 + z % 64 == z
  {
  }

  lemma {:induction false} ReadGroup(a: nat, b: nat, c: nat, d: nat, rest: string)
    requires a < 64 && b < 64 && c < 64 && d < 64 && FromBase64Url(rest).Some?
    ensures FromBase64Url([Base64UrlDigit(a), Base64UrlDigit(b), Base64UrlDigit(c), Base64UrlDigit(d)] + rest)
         == Some([a * 4 + b / 16, b % 16 * 16 + c / 4, c % 4 * 64 + d] + FromBase64Url(rest).value)
  {
    hide Sextet, Base64UrlDigit;
    DigitStandsFor(a);
    DigitStandsFor(b);
    DigitStandsFor(c);
    DigitStandsFor(d);
    var s := [Base64UrlDigit(a), Base64UrlDigit(b), Base64UrlDigit(c), Base64UrlDigit(d)] + rest;
    assert s[4..] == rest;
  }

  lemma {:induction false} FullGroup(bytes: seq<Byte>)
    requires |bytes| >= 3 && FromBase64Url(Base64Url(bytes[3..])) == Some(bytes[3..])
    ensures FromBase64Url(Base64Url(bytes)) == Some(bytes)
  {
    hide Base64UrlDigit, FromBase64Url;
    var x, y, z, rest := bytes[0], bytes[1], bytes[2], bytes[3..];
    ReadGroup(x / 4, x % 4 * 16 + y / 16, y % 16 * 4 + z / 64, z % 64, Base64Url(rest));
    hide Base64Url;
    GroupBits(x, y, z);
    assert bytes == [x, y, z] + rest;
  }

  lemma Base64UrlInjective(a: seq<Byte>, b: seq<Byte>)
    ensures Base64Url(a) == Base64Url(b) <==> a == b
  {
    Base64UrlRoundTrip(a);
    Base64UrlRoundTrip(b);
  }
}
