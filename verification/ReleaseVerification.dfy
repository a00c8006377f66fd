/** The verifier's report on a candidate: when it is refused, what it attests, and when the release is eligible. */
module ReleaseVerification {
  import opened Wrappers
  import opened Arithmetic
  import opened Unicode
  import JsonText
  import opened Sorting
  import opened Collections
  import opened CandidateGate
  import opened VerifierEnvelope
  import opened VerifierClient
  import VerifierExact

  /** RELEASE_VERIFICATION_CHECK_NAMES, which is REQUIRED_CANDIDATE_CHECKS. */
  const REQUIRED := [
    "authentication", "cancellation", "confirmation", "final_state", "no_control_plane_or_model_calls", "origin",
    "read", "replay_idempotency", "reversible_mutation", "schema", "secret_leakage", "tool_selection",
    "trusted_loader"]

  const FAILURE_CODES := {
    "LOGGED_OUT", "FORBIDDEN", "STALE_PAGE", "DEADLINE_EXCEEDED", "INVALID_OUTPUT", "WRONG_STATE",
    "DUPLICATE_REGISTRATION", "ORIGIN_MISMATCH", "WEBMCP_UNAVAILABLE", "TRUSTED_LOADER_REQUIRED",
    "SECRET_LEAKAGE", "CONTROL_PLANE_REQUEST", "MODEL_REQUEST", "CANCELLED"}

  /** A check as reported; its status can be any text. */
  datatype ReportedCheck = ReportedCheck(name: string, status: string, code: Option<string>)

  datatype Csp = Csp(hosted: string, directive: Option<string>)

  datatype Report = Report(
    contentHash: string, integrity: string, releaseId: string, targetOrigin: string, registeredTools: seq<string>,
    enforcedBeforeEvaluation: bool, evaluatedContentHash: string,
    controlPlaneRequests: int, modelRequests: int,
    checks: seq<ReportedCheck>, csp: Csp)

  datatype Expected = Expected(
    contentHash: string, integrity: string, releaseId: string, targetOrigin: string, tools: seq<string>)

  // ---- The checks of a report ----

  predicate Acceptable(c: ReportedCheck)
  {
    && c.name in REQUIRED
    && (c.status == "passed" || c.status == "failed")
    && (c.status == "passed" ==> c.code.None?)
    && (c.status == "failed" ==> c.code.Some? && c.code.value in FAILURE_CODES)
  }

  function CheckName(c: ReportedCheck): string
  {
    c.name
  }

  function InsertCheck(c: ReportedCheck, s: seq<ReportedCheck>): (r: seq<ReportedCheck>)
    ensures multiset(r) == multiset(s) + multiset{c}
  {
    if s == [] || !Before(s[0].name, c.name) then [c] + s
    else
      assert s == [s[0]] + s[1..];
      [s[0]] + InsertCheck(c, s[1..])
  }

  /** `checks.sort((left, right) => compareStrings(left.name, right.name))`. */
  function SortChecks(s: seq<ReportedCheck>): (r: seq<ReportedCheck>)
    ensures multiset(r) == multiset(s)
  {
    if s == [] then []
    else
      assert s == [s[0]] + s[1..];
      InsertCheck(s[0], SortChecks(s[1..]))
  }

  ghost predicate WellFormed(value: seq<ReportedCheck>)
  {
    && |value| == |REQUIRED|
    && (forall i :: 0 <= i < |value| ==> Acceptable(value[i]))
    && Distinct(Map(CheckName, value))
  }

  /** `normalizeChecks`: None where the source throws. */
  method NormalizeChecks(value: seq<ReportedCheck>) returns (r: Option<seq<ReportedCheck>>)
    ensures r.Some? <==> WellFormed(value)
    ensures r.Some? ==> r.value == SortChecks(value)
  {
    hide Acceptable, SortChecks, Map;
    if |value| != |REQUIRED| { return None; }
    var names: set<string> := {};
    var i := 0;
    while i < |value|
      invariant 0 <= i <= |value|
      invariant forall k :: 0 <= k < i ==> Acceptable(value[k])
      invariant forall n :: n in names <==> exists k :: 0 <= k < i && value[k].name == n
      invariant forall j, k :: 0 <= j < k < i ==> value[j].name != value[k].name
    {
      if !Acceptable(value[i]) || value[i].name in names {
        assert !WellFormed(value) by { NotWellFormed(value, i); }
        return None;
      }
      names := names + {value[i].name};
      i := i + 1;
    }
    r := Some(SortChecks(value));
  }

  lemma NotWellFormed(value: seq<ReportedCheck>, i: nat)
    requires i < |value|
    requires !Acceptable(value[i]) || exists k :: 0 <= k < i && value[k].name == value[i].name
    ensures !WellFormed(value)
  {
    hide Acceptable;
    if k: nat :| k < i && value[k].name == value[i].name {
      assert Map(CheckName, value)[k] == Map(CheckName, value)[i];
    }
  }

  lemma {:induction false} NamesOfInsert(c: ReportedCheck, s: seq<ReportedCheck>)
    ensures Map(CheckName, InsertCheck(c, s)) == Insert(c.name, Map(CheckName, s))
  {
    if s != [] && Before(s[0].name, c.name) {
      NamesOfInsert(c, s[1..]);
      assert Map(CheckName, s)[1..] == Map(CheckName, s[1..]);
      hide Before;
      assert Map(CheckName, InsertCheck(c, s)) == [s[0].name] + Map(CheckName, InsertCheck(c, s[1..]));
    }
  }

  lemma {:induction false} NamesOfSort(s: seq<ReportedCheck>)
    ensures Map(CheckName, SortChecks(s)) == Sort(Map(CheckName, s))
  {
    if s != [] {
      NamesOfSort(s[1..]);
      NamesOfInsert(s[0], SortChecks(s[1..]));
      hide InsertCheck, Insert;
      assert Map(CheckName, s)[1..] == Map(CheckName, s[1..]);
    }
  }

  // ---- The names are in order ----

  /** Texts that part at an ASCII character are ordered by it. */
  lemma {:induction false} BeforeAt(a: string, b: string, k: nat)
    requires k < |a| && k < |b| && a[..k] == b[..k] && a[k] < b[k] && b[k] < 128 as char
    ensures Before(a, b)
  {
    assert Units(a) == UnitsOf(a[0]) + Units(a[1..]) && Units(b) == UnitsOf(b[0]) + Units(b[1..]);
    if k > 0 {
      assert a[0] == a[..k][0] == b[..k][0] == b[0];
      assert a[1..][..k - 1] == a[..k][1..] == b[..k][1..] == b[1..][..k - 1];
      BeforeAt(a[1..], b[1..], k - 1);
      SameStart(UnitsOf(a[0]), Units(a[1..]), Units(b[1..]));
    }
  }

  lemma {:induction false} SameStart(u: seq<int>, a: seq<int>, b: seq<int>)
    ensures UnitsBefore(u + a, u + b) == UnitsBefore(a, b)
  {
    if u == [] {
      assert u + a == a && u + b == b;
    } else {
      assert (u + a)[1..] == u[1..] + a && (u + b)[1..] == u[1..] + b;
      SameStart(u[1..], a, b);
    }
  }

  lemma RequiredInOrder(i: nat)
    requires i + 1 < |REQUIRED|
    ensures Before(REQUIRED[i], REQUIRED[i + 1])
  {
    var at := [0, 1, 0, 0, 0, 0, 2, 2, 0, 1, 0, 1][i];
    BeforeAt(REQUIRED[i], REQUIRED[i + 1], at);
  }

  lemma BeforeTwice(a: string, b: string, c: string)
    requires Before(a, b) && Before(b, c)
    ensures Before(a, c)
  {
    hide Before;
    BeforeIsStrictTotal();
  }

  lemma {:induction false} RequiredAscending(i: nat, j: nat)
    requires i < j < |REQUIRED|
    ensures Before(REQUIRED[i], REQUIRED[j])
    decreases j
  {
    hide Before;
    RequiredInOrder(j - 1);
    if i < j - 1 {
      RequiredAscending(i, j - 1);
      BeforeTwice(REQUIRED[i], REQUIRED[j - 1], REQUIRED[j]);
    }
  }

  lemma NameOf(value: seq<ReportedCheck>, n: string) returns (i: nat)
    requires n in Map(CheckName, value)
    ensures i < |value| && value[i].name == n
  {
    hide Map;
    var names := Map(CheckName, value);
    i :| 0 <= i < |names| && names[i] == n;
  }

  /** By pigeonhole, thirteen distinct allowed names are all the required ones. */
  lemma AllNamed(value: seq<ReportedCheck>)
    requires WellFormed(value)
    ensures Members(Map(CheckName, value)) == Members(REQUIRED)
  {
    hide Map, Distinct;
    var names := Map(CheckName, value);
    RequiredDistinct();
    MembersSize(REQUIRED);
    forall i | 0 <= i < |names|
      ensures names[i] in Members(REQUIRED)
    {
      assert Acceptable(value[i]);
    }
    Pigeonhole(names, Members(REQUIRED));
  }

  /** Sorted, the names are the list of required names itself. */
  lemma NormalizedNames(value: seq<ReportedCheck>)
    requires WellFormed(value)
    ensures Map(CheckName, SortChecks(value)) == REQUIRED
  {
    hide Sort, Map, Acceptable, Before;
    var names, required := Map(CheckName, value), Members(REQUIRED);
    AllNamed(value);
    NamesOfSort(value);
    assert forall k :: k in names <==> k in Members(names);
    SortedKeysOfAnyEnumeration(required, names);
    RequiredIsSorted();
  }

  lemma RequiredIsSorted()
    ensures SortedKeys(Members(REQUIRED)) == REQUIRED
  {
    hide Before;
    forall i, j | 0 <= i < j < |REQUIRED|
      ensures Before(REQUIRED[i], REQUIRED[j])
    {
      RequiredAscending(i, j);
    }
    BeforeIsStrictTotal();
    OrderedUnique(Before, Members(REQUIRED), REQUIRED);
  }

  lemma RequiredDistinct()
    ensures Distinct(REQUIRED)
  {
    forall i, j | 0 <= i < j < |REQUIRED|
      ensures REQUIRED[i] != REQUIRED[j]
    {
      RequiredAscending(i, j);
      BeforeIsStrictTotal();
    }
  }

  // ---- What a report attests ----

  predicate ToolName(s: string)
  {
    && 1 <= |s| <= 64 && 'a' <= s[0] <= 'z'
    && forall i :: 1 <= i < |s| ==> 'a' <= s[i] <= 'z' || '0' <= s[i] <= '9' || s[i] == '_'
  }

  predicate ValidTools(names: seq<string>)
  {
    1 <= |names| <= 100 && (forall i :: 0 <= i < |names| ==> ToolName(names[i])) && |Members(names)| == |names|
  }

  /** `equalStrings` of release-verification.ts, which also asks for valid tool names. */
  predicate EqualTools(left: seq<string>, right: seq<string>)
  {
    ValidTools(left) && ValidTools(right) && Sort(left) == Sort(right)
  }

  /** `candidateReportRejection`: the field that refuses the report. */
  function Rejection(report: Option<Report>, input: Expected): Option<string>
  {
    if report.None? then Some("report_missing")
    else
      var r := report.value;
      if r.contentHash != input.contentHash then Some("content_hash")
      else if r.integrity != input.integrity then Some("integrity")
      else if r.releaseId != input.releaseId then Some("release_id")
      else if r.targetOrigin != input.targetOrigin then Some("target_origin")
      else if !EqualTools(r.registeredTools, input.tools) then Some("registered_tools")
      else if !r.enforcedBeforeEvaluation then Some("trusted_loader_not_enforced")
      else if r.evaluatedContentHash != input.contentHash then Some("trusted_loader_hash")
      else if r.controlPlaneRequests != 0 then Some("control_plane_requests")
      else if r.modelRequests != 0 then Some("model_requests")
      else None
  }

  predicate SafeDirective(s: string)
  {
    1 <= |s| <= 512 && forall i :: 0 <= i < |s| ==> ' ' <= s[i] <= '~'
  }

  predicate SafeCsp(c: Csp)
  {
    c.hosted in {"allowed", "blocked"} && (c.directive.Some? ==> SafeDirective(c.directive.value))
  }

  datatype CandidateAttestation = CandidateAttestation(
    schema: bool, authenticated: bool, replayPasses: nat, noSecretLeakage: bool, browserExecution: bool,
    selectionScore: nat, checks: seq<ReportedCheck>)

  /** The names of the checks that passed. */
  function PassedNames(checks: seq<ReportedCheck>): set<string>
  {
    set c | c in checks && c.status == "passed" :: c.name
  }

  function Attestation(checks: seq<ReportedCheck>): CandidateAttestation
  {
    var passed := PassedNames(checks);
    CandidateAttestation(
      "schema" in passed && "trusted_loader" in passed,
      "authentication" in passed && "origin" in passed,
      if "replay_idempotency" in passed then 3 else 0,
      "secret_leakage" in passed && "no_control_plane_or_model_calls" in passed,
      |passed| == |REQUIRED|,
      if "tool_selection" in passed then 20 else 0,
      checks)
  }

  ghost function Attest(input: Expected, report: Option<Report>): Result<CandidateAttestation, string>
  {
    match Rejection(report, input)
    case Some(reason) => Err(reason)
    case None =>
      if !WellFormed(report.value.checks) then Err("checks")
      else if !SafeCsp(report.value.csp) then Err("csp")
      else Ok(Attestation(SortChecks(report.value.checks)))
  }

  /** `attestReleaseCandidate`, from the report of the verifier on. */
  method AttestReleaseCandidate(input: Expected, report: Option<Report>)
    returns (r: Result<CandidateAttestation, string>)
    ensures r == Attest(input, report)
  {
    hide WellFormed, SortChecks, EqualTools, SafeCsp, Attestation;
    var rejection := Rejection(report, input);
    if rejection.Some? { return Err(rejection.value); }
    var checks := NormalizeChecks(report.value.checks);
    if checks.None? { return Err("checks"); }
    if !SafeCsp(report.value.csp) { return Err("csp"); }
    r := Ok(Attestation(checks.value));
  }

  // ---- When a report is accepted ----

  /** `/^[a-z][a-z0-9_]{0,63}$/`, by character codes. */
  ghost predicate ProperName(s: string)
  {
    && 1 <= |s| <= 64 && 0x61 <= s[0] as int <= 0x7A
    && forall k :: 1 <= k < |s| ==>
         0x61 <= s[k] as int <= 0x7A || 0x30 <= s[k] as int <= 0x39 || s[k] == '_'
  }

  /** One to a hundred distinct names. */
  ghost predicate ProperNames(names: seq<string>)
  {
    1 <= |names| <= 100 && Distinct(names) && forall i :: 0 <= i < |names| ==> ProperName(names[i])
  }

  /** The thirteen checks, each once: passed without a code, or failed with a known one. */
  ghost predicate ProperChecks(checks: seq<ReportedCheck>)
  {
    && |checks| == 13
    && (forall i, j :: 0 <= i < j < |checks| ==> checks[i].name != checks[j].name)
    && forall i :: 0 <= i < |checks| ==>
         && checks[i].name in REQUIRED
         && if checks[i].code.None? then checks[i].status == "passed"
            else checks[i].status == "failed" && checks[i].code.value in FAILURE_CODES
  }

  /** What a report is held to, in the order it is looked at, each with the reason that refuses it. */
  ghost function Grounds(input: Expected, r: Report): seq<(bool, string)>
  {
    [(r.contentHash == input.contentHash, "content_hash"),
     (r.integrity == input.integrity, "integrity"),
     (r.releaseId == input.releaseId, "release_id"),
     (r.targetOrigin == input.targetOrigin, "target_origin"),
     (ProperNames(input.tools) && multiset(r.registeredTools) == multiset(input.tools), "registered_tools"),
     (r.enforcedBeforeEvaluation, "trusted_loader_not_enforced"),
     (r.evaluatedContentHash == input.contentHash, "trusted_loader_hash"),
     (r.controlPlaneRequests == 0, "control_plane_requests"),
     (r.modelRequests == 0, "model_requests"),
     (ProperChecks(r.checks), "checks"),
     ((r.csp.hosted == "allowed" || r.csp.hosted == "blocked")
      && (r.csp.directive.Some? ==> 1 <= |r.csp.directive.value| <= 512
            && forall i :: 0 <= i < |r.csp.directive.value| ==> 0x20 <= r.csp.directive.value[i] as int <= 0x7E),
      "csp")]
  }

  /** The first ground that does not hold is the answer. */
  ghost predicate FirstRefuses(grounds: seq<(bool, string)>, answer: Result<CandidateAttestation, string>)
  {
    forall k :: 0 <= k < |grounds| && !grounds[k].0 && (forall j :: 0 <= j < k ==> grounds[j].0)
      ==> answer == Err(grounds[k].1)
  }

  ghost predicate Accepted(input: Expected, r: Report)
  {
    forall k :: 0 <= k < |Grounds(input, r)| ==> Grounds(input, r)[k].0
  }

  lemma ProperToolNames(names: seq<string>)
    ensures ValidTools(names) <==> ProperNames(names)
  {
    hide Distinct;
    MembersSize(names);
    assert forall s :: ToolName(s) <==> ProperName(s);
  }

  lemma ToolsExactly(left: seq<string>, right: seq<string>)
    ensures EqualTools(left, right) <==> ProperNames(right) && multiset(left) == multiset(right)
  {
    hide ToolName, Sort, ProperName, ValidTools, Distinct;
    SortedEqualIffPermutation(left, right);
    ProperToolNames(left);
    ProperToolNames(right);
    if multiset(left) == multiset(right) {
      PermutedMembers(left, right);
      MembersSize(left);
      MembersSize(right);
      if ProperNames(right) {
        forall i | 0 <= i < |left|
          ensures ProperName(left[i])
        {
          assert left[i] in right;
        }
      }
    }
  }

  lemma PermutedMembers(left: seq<string>, right: seq<string>)
    requires multiset(left) == multiset(right)
    ensures |left| == |right| && Members(left) == Members(right)
    ensures forall s :: s in left <==> s in right
  {
    assert |multiset(left)| == |multiset(right)|;
    forall s
      ensures s in left <==> s in right
    {
      assert s in multiset(left) <==> s in multiset(right);
    }
  }

  lemma ChecksExactly(checks: seq<ReportedCheck>)
    ensures WellFormed(checks) <==> ProperChecks(checks)
  {
  }

  /**
   A report is attested exactly when it is there and holds to everything asked of it; otherwise the answer is the
   reason of the first thing it does not hold to.
   */
  lemma AttestExactly(input: Expected, report: Option<Report>)
    ensures Attest(input, report).Ok? <==> report.Some? && Accepted(input, report.value)
    ensures report.None? ==> Attest(input, report) == Err("report_missing")
    ensures report.Some? ==> FirstRefuses(Grounds(input, report.value), Attest(input, report))
  {
    hide EqualTools, WellFormed, ProperNames, ProperChecks, SortChecks, Attestation, Accepted;
    if report.Some? {
      var g := Grounds(input, report.value);
      ToolsExactly(report.value.registeredTools, input.tools);
      ChecksExactly(report.value.checks);
      AllGrounds(input, report.value);
    }
  }

  lemma AllGrounds(input: Expected, r: Report)
    ensures var g := Grounds(input, r);
      Accepted(input, r) <==> g[0].0 && g[1].0 && g[2].0 && g[3].0 && g[4].0 && g[5].0 && g[6].0 && g[7].0 && g[8].0
                              && g[9].0 && g[10].0
  {
    hide ProperNames, ProperChecks;
  }

  // ---- Eligibility ----

  datatype Verification = Verification(
    schema: bool, authenticated: bool, replayPasses: nat, noSecretLeakage: bool, browserExecution: bool,
    selectionScore: nat)

  /** `applyAttestation`: the worse of what was prepared and what was attested. */
  function Apply(p: Prepared, a: CandidateAttestation): Verification
  {
    Verification(
      p.schema && a.schema, p.authenticated && a.authenticated, Min(p.replayPasses, a.replayPasses),
      p.noSecretLeakage && a.noSecretLeakage, a.browserExecution, Min(p.selectionScore, a.selectionScore))
  }

  function When(failed: bool, name: string): seq<string>
  {
    if failed then [name] else []
  }

  /** The failures `evaluateRelease` lists; a release is eligible when there are none. */
  function Failures(v: Verification): seq<string>
  {
    When(!v.schema, "SCHEMA") + When(!v.authenticated, "AUTH") + When(v.replayPasses < 3, "REPLAY")
    + When(!v.noSecretLeakage, "SECRET_LEAKAGE") + When(!v.browserExecution, "BROWSER")
    + When(v.selectionScore < 18, "TOOL_SELECTION")
  }

  predicate Eligible(v: Verification)
  {
    Failures(v) == []
  }

  lemma EligibleMeans(v: Verification)
    ensures Eligible(v) <==>
      v.schema && v.authenticated && v.replayPasses >= 3 && v.noSecretLeakage && v.browserExecution
      && v.selectionScore >= 18
  {
    if Eligible(v) {
      assert |Failures(v)| == 0;
    }
  }

  ghost predicate AllPassed(checks: seq<ReportedCheck>)
  {
    forall i :: 0 <= i < |checks| ==> checks[i].status == "passed"
  }

  lemma SortedMembers(checks: seq<ReportedCheck>, c: ReportedCheck)
    ensures c in SortChecks(checks) <==> c in checks
  {
    hide SortChecks;
    assert c in multiset(SortChecks(checks)) <==> c in multiset(checks);
  }

  /** Thirteen names passed exactly when every reported check passed, and then each required name did. */
  lemma PassedExactly(checks: seq<ReportedCheck>)
    requires WellFormed(checks)
    ensures var passed := PassedNames(SortChecks(checks));
      && (|passed| == |REQUIRED| <==> AllPassed(checks))
      && (AllPassed(checks) ==> passed == Members(REQUIRED))
  {
    hide SortChecks, Map, Acceptable, Distinct;
    AllNamed(checks);
    RequiredDistinct();
    MembersSize(REQUIRED);
    PassedWithin(checks);
    var passed := PassedNames(SortChecks(checks));
    if |passed| == |REQUIRED| {
      SubsetOfSize(passed, Members(REQUIRED));
      PassedEverywhere(checks);
    }
    if AllPassed(checks) {
      PassedAtOnce(checks);
      assert passed == Members(REQUIRED);
    }
  }

  lemma PassedWithin(checks: seq<ReportedCheck>)
    ensures PassedNames(SortChecks(checks)) <= Members(Map(CheckName, checks))
  {
    hide SortChecks, Map;
    forall n | n in PassedNames(SortChecks(checks))
      ensures n in Map(CheckName, checks)
    {
      var c :| c in SortChecks(checks) && c.status == "passed" && c.name == n;
      SortedMembers(checks, c);
      var i :| 0 <= i < |checks| && checks[i] == c;
      assert Map(CheckName, checks)[i] == n;
    }
  }

  lemma PassedAtOnce(checks: seq<ReportedCheck>)
    requires AllPassed(checks)
    ensures Members(Map(CheckName, checks)) <= PassedNames(SortChecks(checks))
  {
    hide SortChecks, Map;
    forall n | n in Map(CheckName, checks)
      ensures n in PassedNames(SortChecks(checks))
    {
      var i := NameOf(checks, n);
      SortedMembers(checks, checks[i]);
    }
  }

  lemma PassedEverywhere(checks: seq<ReportedCheck>)
    requires WellFormed(checks) && PassedNames(SortChecks(checks)) == Members(REQUIRED)
    ensures AllPassed(checks)
  {
    hide SortChecks, Map, PassedNames;
    AllNamed(checks);
    forall i | 0 <= i < |checks|
      ensures checks[i].status == "passed"
    {
      assert Map(CheckName, checks)[i] == checks[i].name;
      var c := PassedCheck(SortChecks(checks), checks[i].name);
      SortedMembers(checks, c);
      var j :| 0 <= j < |checks| && checks[j] == c;
      assert Map(CheckName, checks)[j] == checks[j].name;
      assert i == j;
    }
  }

  lemma PassedCheck(checks: seq<ReportedCheck>, n: string) returns (c: ReportedCheck)
    requires n in PassedNames(checks)
    ensures c in checks && c.status == "passed" && c.name == n
  {
    c :| c in checks && c.status == "passed" && c.name == n;
  }

  /** The release is eligible exactly when what was prepared holds and every one of the thirteen checks passed. */
  lemma EligibleExactly(p: Prepared, input: Expected, report: Option<Report>)
    requires Attest(input, report).Ok?
    ensures Eligible(Apply(p, Attest(input, report).value)) <==>
      && p.schema && p.authenticated && p.replayPasses >= 3 && p.noSecretLeakage && p.selectionScore >= 18
      && AllPassed(report.value.checks)
  {
    hide WellFormed, SortChecks, AllPassed, PassedNames, Failures;
    var checks := report.value.checks;
    var a := Attestation(SortChecks(checks));
    PassedExactly(checks);
    EligibleMeans(Apply(p, a));
    if AllPassed(checks) {
      AllAttested(SortChecks(checks));
    }
  }

  ghost predicate HasPassed(checks: seq<ReportedCheck>, name: string)
  {
    exists check :: check in checks && check.name == name && check.status == "passed"
  }

  lemma PassedNamed(checks: seq<ReportedCheck>, name: string)
    ensures name in PassedNames(SortChecks(checks)) <==> HasPassed(checks, name)
  {
    hide SortChecks;
    if name in PassedNames(SortChecks(checks)) {
      var c := PassedCheck(SortChecks(checks), name);
      SortedMembers(checks, c);
    }
    if HasPassed(checks, name) {
      var c :| c in checks && c.name == name && c.status == "passed";
      SortedMembers(checks, c);
    }
  }

  lemma FailureListed(v: Verification, name: string)
    ensures name in Failures(v) <==>
      || (name == "SCHEMA" && !v.schema) || (name == "AUTH" && !v.authenticated)
      || (name == "REPLAY" && v.replayPasses < 3) || (name == "SECRET_LEAKAGE" && !v.noSecretLeakage)
      || (name == "BROWSER" && !v.browserExecution) || (name == "TOOL_SELECTION" && v.selectionScore < 18)
  {
  }

  /** Which failures an accepted report leaves, by what was prepared and the checks that passed. */
  lemma FailuresExactly(p: Prepared, input: Expected, report: Option<Report>, name: string)
    requires Attest(input, report).Ok?
    ensures var checks := report.value.checks;
      name in Failures(Apply(p, Attest(input, report).value)) <==>
      match name
      case "SCHEMA" => !(p.schema && HasPassed(checks, "schema") && HasPassed(checks, "trusted_loader"))
      case "AUTH" => !(p.authenticated && HasPassed(checks, "authentication") && HasPassed(checks, "origin"))
      case "REPLAY" => !(p.replayPasses >= 3 && HasPassed(checks, "replay_idempotency"))
      case "SECRET_LEAKAGE" => !(p.noSecretLeakage && HasPassed(checks, "secret_leakage")
                                 && HasPassed(checks, "no_control_plane_or_model_calls"))
      case "BROWSER" => !AllPassed(checks)
      case "TOOL_SELECTION" => !(p.selectionScore >= 18 && HasPassed(checks, "tool_selection"))
      case _ => false
  {
    hide WellFormed, SortChecks, AllPassed, PassedNames, Failures, HasPassed, EqualTools, SafeCsp;
    var checks := report.value.checks;
    PassedExactly(checks);
    FailureListed(Apply(p, Attestation(SortChecks(checks))), name);
    PassedNamed(checks, "schema");
    PassedNamed(checks, "trusted_loader");
    PassedNamed(checks, "authentication");
    PassedNamed(checks, "origin");
    PassedNamed(checks, "replay_idempotency");
    PassedNamed(checks, "secret_leakage");
    PassedNamed(checks, "no_control_plane_or_model_calls");
    PassedNamed(checks, "tool_selection");
  }

  lemma AllAttested(checks: seq<ReportedCheck>)
    requires PassedNames(checks) == Members(REQUIRED)
    ensures var a := Attestation(checks);
      a.schema && a.authenticated && a.replayPasses == 3 && a.noSecretLeakage && a.selectionScore == 20
  {
    hide PassedNames;
    assert REQUIRED[9] == "schema" && REQUIRED[12] == "trusted_loader" && REQUIRED[0] == "authentication"
      && REQUIRED[5] == "origin" && REQUIRED[7] == "replay_idempotency" && REQUIRED[10] == "secret_leakage"
      && REQUIRED[4] == "no_control_plane_or_model_calls" && REQUIRED[11] == "tool_selection";
  }

  /** The decision on a release: what was prepared, worsened by the report, and not eligible where that is refused. */
  ghost predicate Passes(t: Tools, projectUrl: string, release: Candidate, inspected: string, cs: seq<Capability>,
    input: Expected, report: Option<Report>)
  {
    var attested := Attest(input, report);
    attested.Ok? && Eligible(Apply(Prepare(t, projectUrl, release, inspected, cs), attested.value))
  }

  /**
   The gate as a whole: a release is eligible exactly when the report is accepted, the candidate's plans are a
   permutation of the unblocked capabilities, its code has its digest, all origins agree, three compilations reproduce
   it, nothing leaks, and every check of the verifier passed.
   */
  lemma GateExactly(t: Tools, projectUrl: string, release: Candidate, inspected: string, cs: seq<Capability>,
    input: Expected, report: Option<Report>)
    requires DigestsAreHashes(t)
    ensures var origin := t.originOf(projectUrl);
      var candidate := Narrowed(t, origin, release, cs);
      Passes(t, projectUrl, release, inspected, cs, input, report) <==>
      && report.Some? && Accepted(input, report.value)
      && Unblocked(cs) != [] && origin == Some(candidate.allowedOrigin) && t.parse(candidate.manifest).Some?
      && t.parse(candidate.manifest).value.targetOrigin == candidate.allowedOrigin
      && var plans := t.parse(candidate.manifest).value.plans;
      && Distinct(PlanNames(plans)) && SamePlans(t, plans, Unblocked(cs))
      && t.sha256(candidate.code) == candidate.contentHash
      && (forall attempt: nat :: 2 <= attempt < 5 ==>
            && t.compile(attempt, plans).Some? && t.compile(attempt, plans).value.code == candidate.code
            && t.compile(attempt, plans).value.contentHash == candidate.contentHash)
      && !t.leaks(candidate.code + "\n" + inspected)
      && forall check :: check in report.value.checks ==> check.status == "passed"
  {
    hide Narrowed, ExactSelection, ReplayPasses, Replayed, SamePlans, Attest, Apply, Eligible, AllPassed, IsHash,
      Distinct, Map, Grounds, Accepted;
    AttestExactly(input, report);
    if Attest(input, report).Ok? {
      EveryCheck(report.value.checks);
      var origin := t.originOf(projectUrl);
      var candidate := Narrowed(t, origin, release, cs);
      EligibleExactly(Prepare(t, projectUrl, release, inspected, cs), input, report);
      ExactSelectionExactly(t, candidate, cs);
      ReplaysExactly(t, origin, candidate);
      if SameOrigin(t, origin, candidate) {
        ThreeReplays(t, t.parse(candidate.manifest).value.plans, candidate.code, candidate.contentHash);
      }
    }
  }

  lemma ThreeReplays(t: Tools, plans: seq<CandidateGate.Plan>, code: string, digest: string)
    ensures (forall k :: 0 <= k < REPLAYS ==> Replayed(t, k, plans, code, digest)) <==>
      forall attempt: nat :: 2 <= attempt < 5 ==>
        && t.compile(attempt, plans).Some? && t.compile(attempt, plans).value.code == code
        && t.compile(attempt, plans).value.contentHash == digest
  {
    if forall k :: 0 <= k < REPLAYS ==> Replayed(t, k, plans, code, digest) {
      assert Replayed(t, 0, plans, code, digest) && Replayed(t, 1, plans, code, digest)
        && Replayed(t, 2, plans, code, digest);
    }
  }

  lemma EveryCheck(checks: seq<ReportedCheck>)
    ensures AllPassed(checks) <==> forall check :: check in checks ==> check.status == "passed"
  {
  }

  /** The tools a verifier saw registered are, in an accepted report, exactly those that were expected. */
  lemma RegisteredAsExpected(input: Expected, report: Option<Report>)
    requires Attest(input, report).Ok?
    ensures multiset(report.value.registeredTools) == multiset(input.tools)
    ensures Distinct(input.tools) && forall i :: 0 <= i < |input.tools| ==> ToolName(input.tools[i])
  {
    hide WellFormed, SortChecks, Attestation, SafeCsp, ToolName, Sort;
    SortedEqualIffPermutation(report.value.registeredTools, input.tools);
    MembersSize(input.tools);
  }

  /** The tools an eligible release registers are, by name, the plans of its candidate. */
  lemma EligibleRegistersItsPlans(t: Tools, projectUrl: string, release: Candidate, inspected: string,
    cs: seq<Capability>, input: Expected, report: Option<Report>)
    requires DigestsAreHashes(t) && Passes(t, projectUrl, release, inspected, cs, input, report)
    requires input.tools == Sort(CapabilityNames(Unblocked(cs)))
    ensures var candidate := Narrowed(t, t.originOf(projectUrl), release, cs);
      && t.parse(candidate.manifest).Some?
      && multiset(report.value.registeredTools) == multiset(PlanNames(t.parse(candidate.manifest).value.plans))
  {
    hide Narrowed, Prepare, Attest, Apply, Eligible, AllPassed, IsHash, Distinct, Map, Replayed, ToolName, Sort;
    GateExactly(t, projectUrl, release, inspected, cs, input, report);
    RegisteredAsExpected(input, report);
    var candidate := Narrowed(t, t.originOf(projectUrl), release, cs);
    SameNames(t, t.parse(candidate.manifest).value.plans, Unblocked(cs));
  }

  // ---- The identity of an attestation ----

  /** `validVerifierAttestationIdentity`; a date that does not parse compares with nothing. */
  predicate ValidIdentity(p: Platform, a: VerifierEnvelope.Attestation, operation: string)
  {
    && a.operation == operation
    && IsUuidV4(a.attestationId) && IsUuidV4(a.requestId)
    && IsHash(a.nonceDigest) && IsHash(a.scopeDigest) && IsHash(a.payloadDigest)
    && IsTimestamp(a.issuedAt) && IsTimestamp(a.expiresAt) && IsTimestamp(a.attestedAt)
    && p.parseDate(a.issuedAt).Some? && p.parseDate(a.expiresAt).Some? && p.parseDate(a.attestedAt).Some?
    && p.parseDate(a.issuedAt).value <= p.parseDate(a.attestedAt).value < p.parseDate(a.expiresAt).value
  }

  /** The context an attestation would answer. */
  function OwnContext(a: VerifierEnvelope.Attestation): Context
  {
    Context(a.requestId, a.nonceDigest, a.operation, a.scopeDigest, a.payloadDigest, a.issuedAt, a.expiresAt)
  }

  /**
   What the client would trust in its own context, at the instant it was attested, is what the gate accepts as identity
   and what besides has dates as they are printed, a known operation and at most two minutes.
   */
  lemma IdentityExactly(p: Platform, a: VerifierEnvelope.Attestation)
    requires p.parseDate(a.attestedAt).Some?
    ensures VerifierExact.Trusted(p, a, OwnContext(a), DateOf(p, a.attestedAt)) <==>
      && ValidIdentity(p, a, a.operation) && a.operation in OPERATIONS
      && p.iso(DateOf(p, a.issuedAt)) == a.issuedAt && p.iso(DateOf(p, a.expiresAt)) == a.expiresAt
      && p.iso(DateOf(p, a.attestedAt)) == a.attestedAt
      && DateOf(p, a.expiresAt) <= DateOf(p, a.issuedAt) + 120000
  {
    hide IsHash, IsUuidV4, IsTimestamp;
  }

  /** Whatever the client accepts, the gate accepts as identity of the request's operation and of no other. */
  lemma AcceptedIdentityValid(p: Platform, body: string, signed: bool, c: Context, now: Option<int>, operation: string)
    requires ExamineResponse(p, body, signed, c, now).Ok?
    ensures ValidIdentity(p, ExamineResponse(p, body, signed, c, now).value.attestation, operation)
       <==> operation == c.operation
  {
    hide IsHash, IsUuidV4, IsTimestamp, JsonText.ParseCanonical, ByteLength, ValidContext;
  }
}
