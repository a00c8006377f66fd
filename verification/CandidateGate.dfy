/** Which plans a release candidate holds: narrowing, the selection test, and the replays of the compiler. */
module CandidateGate {
  import opened Wrappers
  import opened JsonText
  import opened Sorting
  import opened Collections
  import opened VerifierEnvelope

  datatype Plan = Plan(name: string, riskTier: string, definition: Json)

  datatype Capability = Capability(
    stableName: string, riskTier: string, blocked: bool, plan: Plan, planDigest: string)

  datatype Manifest = Manifest(targetOrigin: string, plans: seq<Plan>)

  datatype Candidate = Candidate(code: string, contentHash: string, allowedOrigin: string, manifest: Json)

  /**
   What the gate is given: the manifest schema, the compiler (by number of the call; None when it throws), the text of
   a plan in its canonical form, SHA-256, the origin of a URL, and the search for secrets in the inspected text.
   */
  datatype Tools = Tools(
    parse: Json -> Option<Manifest>,
    compile: (nat, seq<Plan>) -> Option<Candidate>,
    planText: Plan -> string,
    sha256: string -> string,
    originOf: string -> Option<string>,
    leaks: string -> bool)

  ghost predicate DigestsAreHashes(t: Tools)
  {
    forall s :: IsHash(t.sha256(s))
  }

  /** `capabilityPlanDigest`: plans that differ only in what the canonical form evens out share a digest. */
  function PlanDigest(t: Tools, p: Plan): string
  {
    t.sha256(t.planText(p))
  }

  /** A name with a digest, as the gate compares them: `name:digest`. */
  datatype Listing = Listing(name: string, digest: string)

  function ListingText(l: Listing): string
  {
    l.name + ":" + l.digest
  }

  function PlanListing(t: Tools, p: Plan): Listing
  {
    Listing(p.name, PlanDigest(t, p))
  }

  function CapabilityListing(c: Capability): Listing
  {
    Listing(c.stableName, c.planDigest)
  }

  function PlanListings(t: Tools, plans: seq<Plan>): seq<Listing>
  {
    Map(p => PlanListing(t, p), plans)
  }

  function CapabilityListings(cs: seq<Capability>): seq<Listing>
  {
    Map(c => CapabilityListing(c), cs)
  }

  function PlanNames(plans: seq<Plan>): seq<string>
  {
    Map((p: Plan) => p.name, plans)
  }

  function CapabilityNames(cs: seq<Capability>): seq<string>
  {
    Map((c: Capability) => c.stableName, cs)
  }

  /** The record of a capability agrees with its own plan. */
  predicate Consistent(t: Tools, c: Capability)
  {
    c.stableName == c.plan.name && c.riskTier == c.plan.riskTier && c.planDigest == PlanDigest(t, c.plan)
  }

  /** `plansMatchCapabilities`: an inconsistent capability counts as undefined, which equals no text. */
  predicate PlansMatchCapabilities(t: Tools, plans: seq<Plan>, cs: seq<Capability>)
  {
    && |plans| == |cs|
    && (forall i :: 0 <= i < |cs| ==> Consistent(t, cs[i]))
    && (Sort(Map(ListingText, CapabilityListings(cs))) == Sort(Map(ListingText, PlanListings(t, plans))))
  }

  predicate IsUnblocked(c: Capability)
  {
    !c.blocked
  }

  function Unblocked(cs: seq<Capability>): seq<Capability>
  {
    Filter(IsUnblocked, cs)
  }

  predicate CompilesTo(t: Tools, attempt: nat, plans: seq<Plan>, code: string, contentHash: string)
  {
    var made := t.compile(attempt, plans);
    made.Some? && made.value.code == code && made.value.contentHash == contentHash
  }

  /** The source release is the canonical compilation of all capabilities, so its plans can be narrowed. */
  predicate Canonical(t: Tools, origin: Option<string>, release: Candidate, cs: seq<Capability>)
  {
    && t.parse(release.manifest).Some?
    && var plans := t.parse(release.manifest).value.plans;
    && origin == Some(release.allowedOrigin)
    && t.parse(release.manifest).value.targetOrigin == release.allowedOrigin
    && |Members(PlanNames(plans))| == |plans|
    && Sort(CapabilityNames(cs)) == Sort(PlanNames(plans))
    && PlansMatchCapabilities(t, plans, cs)
    && CompilesTo(t, 0, plans, release.code, release.contentHash)
  }

  /** The plans whose names are those of unblocked capabilities. */
  function KeptPlans(plans: seq<Plan>, cs: seq<Capability>): seq<Plan>
  {
    var selected := Members(CapabilityNames(Unblocked(cs)));
    Filter((p: Plan) => p.name in selected, plans)
  }

  /** The candidate: the canonical source without its blocked plans, or the source as it is. */
  function Narrowed(t: Tools, origin: Option<string>, release: Candidate, cs: seq<Capability>): Candidate
  {
    if !Canonical(t, origin, release, cs) then release
    else
      match t.compile(1, KeptPlans(t.parse(release.manifest).value.plans, cs))
      case Some(made) => made
      case None => release
  }

  predicate ExactSelection(t: Tools, candidate: Candidate, cs: seq<Capability>)
  {
    var selected := Unblocked(cs);
    && |selected| > 0
    && t.parse(candidate.manifest).Some?
    && var plans := t.parse(candidate.manifest).value.plans;
    && |Members(PlanNames(plans))| == |plans|
    && Sort(CapabilityNames(selected)) == Sort(PlanNames(plans))
    && PlansMatchCapabilities(t, plans, selected)
  }

  predicate SameOrigin(t: Tools, origin: Option<string>, candidate: Candidate)
  {
    && t.parse(candidate.manifest).Some?
    && origin == Some(candidate.allowedOrigin)
    && t.parse(candidate.manifest).value.targetOrigin == candidate.allowedOrigin
  }

  const REPLAYS := 3

  predicate Replayed(t: Tools, k: nat, plans: seq<Plan>, code: string, digest: string)
  {
    CompilesTo(t, 2 + k, plans, code, digest)
  }

  /** Attempts from `k` on that reproduce the candidate before one does not; None when the compiler throws. */
  function Replays(t: Tools, plans: seq<Plan>, code: string, digest: string, k: nat): Option<nat>
    requires k <= REPLAYS
    decreases REPLAYS - k
  {
    if k == REPLAYS then Some(0)
    else if t.compile(2 + k, plans).None? then None
    else if !Replayed(t, k, plans, code, digest) then Some(0)
    else
      match Replays(t, plans, code, digest, k + 1)
      case None => None
      case Some(n) => Some(n + 1)
  }

  function ReplayPasses(t: Tools, origin: Option<string>, candidate: Candidate): nat
  {
    if !SameOrigin(t, origin, candidate) then 0
    else
      match Replays(t, t.parse(candidate.manifest).value.plans, candidate.code, t.sha256(candidate.code), 0)
      case None => 0
      case Some(n) => n
  }

  /** What is known of a candidate before a browser has run it. */
  datatype Prepared = Prepared(
    candidate: Candidate, schema: bool, authenticated: bool, replayPasses: nat, noSecretLeakage: bool,
    selectionScore: nat)

  function Prepare(t: Tools, projectUrl: string, release: Candidate, inspected: string, cs: seq<Capability>): Prepared
  {
    var origin := t.originOf(projectUrl);
    var candidate := Narrowed(t, origin, release, cs);
    var exact := ExactSelection(t, candidate, cs);
    Prepared(candidate,
      exact && t.sha256(candidate.code) == candidate.contentHash,
      SameOrigin(t, origin, candidate),
      ReplayPasses(t, origin, candidate),
      !t.leaks(candidate.code + "\n" + inspected),
      if exact then 20 else 0)
  }

  /** `deriveVerification`: None when there is no release to verify. */
  method DeriveVerification(t: Tools, projectUrl: string, release: Option<Candidate>, inspected: string,
    cs: seq<Capability>) returns (r: Result<Prepared, string>)
    ensures r == match release
      case None => Err("INVALID_STATE")
      case Some(source) => Ok(Prepare(t, projectUrl, source, inspected, cs))
  {
    if release.None? { return Err("INVALID_STATE"); }
    hide Narrowed, ExactSelection, Replays;
    var origin := t.originOf(projectUrl);
    var candidate := Narrow(t, origin, release.value, cs);
    var digest := t.sha256(candidate.code);
    var exactSelection := ExactSelection(t, candidate, cs);
    var authenticated := SameOrigin(t, origin, candidate);
    var replayPasses := 0;
    if authenticated {
      replayPasses := CountReplays(t, t.parse(candidate.manifest).value.plans, candidate.code, digest);
    }
    r := Ok(Prepared(candidate, exactSelection && digest == candidate.contentHash, authenticated, replayPasses,
      !t.leaks(candidate.code + "\n" + inspected), if exactSelection then 20 else 0));
  }

  /** The candidate is reassigned only when both compilations succeed. */
  method Narrow(t: Tools, origin: Option<string>, release: Candidate, cs: seq<Capability>)
    returns (candidate: Candidate)
    ensures candidate == Narrowed(t, origin, release, cs)
    ensures candidate != release ==>
      Canonical(t, origin, release, cs) && exists plans :: t.compile(1, plans) == Some(candidate)
  {
    hide Canonical, Filter, Map;
    candidate := release;
    if Canonical(t, origin, release, cs) {
      CanonicalParses(t, origin, release, cs);
      var compiled := t.compile(1, KeptPlans(t.parse(release.manifest).value.plans, cs));
      if compiled.Some? {
        candidate := compiled.value;
      }
    }
  }

  lemma CanonicalParses(t: Tools, origin: Option<string>, release: Candidate, cs: seq<Capability>)
    ensures Canonical(t, origin, release, cs) ==> t.parse(release.manifest).Some?
  {
  }

  /** The loop of replays: it stops at the first attempt that differs and counts nothing when one throws. */
  method CountReplays(t: Tools, plans: seq<Plan>, code: string, digest: string) returns (passes: nat)
    ensures passes == match Replays(t, plans, code, digest, 0)
      case None => 0
      case Some(n) => n
  {
    passes := 0;
    var attempt := 0;
    while attempt < REPLAYS
      invariant 0 <= attempt <= REPLAYS && passes == attempt
      invariant Replays(t, plans, code, digest, 0) == match Replays(t, plans, code, digest, attempt)
        case None => None
        case Some(n) => Some(attempt + n)
    {
      var replay := t.compile(2 + attempt, plans);
      if replay.None? { return 0; }
      if replay.value.code != code || replay.value.contentHash != digest { return; }
      passes := passes + 1;
      attempt := attempt + 1;
    }
  }

  // ---- What the selection test decides ----

  lemma ListingTextInjective(a: Listing, b: Listing)
    requires IsHash(a.digest) && IsHash(b.digest)
    ensures ListingText(a) == ListingText(b) <==> a == b
  {
    if ListingText(a) == ListingText(b) {
      var s := ListingText(a);
      assert s[|s| - 64..] == a.digest && s[..|s| - 65] == a.name;
      assert s[|s| - 64..] == b.digest && s[..|s| - 65] == b.name;
    }
  }

  /** Comparing the sorted texts decides whether the listings are permutations of each other. */
  lemma ListingsCompared(a: seq<Listing>, b: seq<Listing>)
    requires forall x: Listing :: x in a + b ==> IsHash(x.digest)
    ensures Sort(Map(ListingText, a)) == Sort(Map(ListingText, b)) <==> multiset(a) == multiset(b)
  {
    hide Map, Sort;
    SortedEqualIffPermutation(Map(ListingText, a), Map(ListingText, b));
    forall x: Listing, y: Listing | x in a + b && y in a + b && ListingText(x) == ListingText(y)
      ensures x == y
    {
      ListingTextInjective(x, y);
    }
    InjectiveMapMultiset(ListingText, a, b);
  }

  /** The plans are exactly those of the capabilities, by name and digest, in any order. */
  ghost predicate SamePlans(t: Tools, plans: seq<Plan>, cs: seq<Capability>)
  {
    && (forall i :: 0 <= i < |cs| ==> Consistent(t, cs[i]))
    && multiset(PlanListings(t, plans)) == multiset(CapabilityListings(cs))
  }

  lemma MatchIsPermutation(t: Tools, plans: seq<Plan>, cs: seq<Capability>)
    requires DigestsAreHashes(t)
    ensures PlansMatchCapabilities(t, plans, cs) <==> SamePlans(t, plans, cs)
  {
    var a, b := CapabilityListings(cs), PlanListings(t, plans);
    assert |a| == |cs| && |b| == |plans|;
    if multiset(a) == multiset(b) {
      assert |multiset(a)| == |multiset(b)|;
    }
    hide Map, Consistent, Sort, IsHash;
    if forall i :: 0 <= i < |cs| ==> Consistent(t, cs[i]) {
      forall x: Listing | x in a + b
        ensures IsHash(x.digest)
      {
        ListedDigest(t, plans, cs, x);
      }
      ListingsCompared(a, b);
    }
  }

  lemma ListedDigest(t: Tools, plans: seq<Plan>, cs: seq<Capability>, x: Listing)
    requires DigestsAreHashes(t) && forall i :: 0 <= i < |cs| ==> Consistent(t, cs[i])
    requires x in CapabilityListings(cs) + PlanListings(t, plans)
    ensures IsHash(x.digest)
  {
    hide Map, IsHash;
    var a, b := CapabilityListings(cs), PlanListings(t, plans);
    if x in a {
      var i :| 0 <= i < |a| && a[i] == x;
      assert Consistent(t, cs[i]) && IsHash(PlanDigest(t, cs[i].plan));
    } else {
      var i :| 0 <= i < |b| && b[i] == x;
      assert IsHash(PlanDigest(t, plans[i]));
    }
  }

  /** The same plans have the same names. */
  lemma SameNames(t: Tools, plans: seq<Plan>, cs: seq<Capability>)
    requires multiset(PlanListings(t, plans)) == multiset(CapabilityListings(cs))
    ensures multiset(PlanNames(plans)) == multiset(CapabilityNames(cs))
  {
    var name := (l: Listing) => l.name;
    MapMultiset(name, PlanListings(t, plans), CapabilityListings(cs));
    assert Map(name, PlanListings(t, plans)) == PlanNames(plans);
    assert Map(name, CapabilityListings(cs)) == CapabilityNames(cs);
  }

  /**
   The selection passes exactly when the candidate's plans have distinct names and are, by name and digest, a
   permutation of the unblocked capabilities, of which there is one. The separate comparison of names decides nothing.
   */
  lemma ExactSelectionExactly(t: Tools, candidate: Candidate, cs: seq<Capability>)
    requires DigestsAreHashes(t)
    ensures ExactSelection(t, candidate, cs) <==>
      && Unblocked(cs) != []
      && t.parse(candidate.manifest).Some?
      && var plans := t.parse(candidate.manifest).value.plans;
      && Distinct(PlanNames(plans)) && SamePlans(t, plans, Unblocked(cs))
  {
    hide Map, Sort, Consistent, IsHash, Filter;
    if t.parse(candidate.manifest).Some? {
      var plans, selected := t.parse(candidate.manifest).value.plans, Unblocked(cs);
      MembersSize(PlanNames(plans));
      MatchIsPermutation(t, plans, selected);
      SortedEqualIffPermutation(CapabilityNames(selected), PlanNames(plans));
      if SamePlans(t, plans, selected) {
        SameNames(t, plans, selected);
      }
    }
  }

  function OwnPlans(cs: seq<Capability>): seq<Plan>
  {
    Map((c: Capability) => c.plan, cs)
  }

  lemma OwnListings(t: Tools, cs: seq<Capability>)
    requires forall i :: 0 <= i < |cs| ==> Consistent(t, cs[i])
    ensures PlanListings(t, OwnPlans(cs)) == CapabilityListings(cs)
  {
    var a, b := PlanListings(t, OwnPlans(cs)), CapabilityListings(cs);
    forall i | 0 <= i < |cs|
      ensures a[i] == b[i]
    {
      assert Consistent(t, cs[i]);
    }
  }

  /** No two of these plans differ in their canonical texts and share a digest. */
  ghost predicate NoCollision(t: Tools, plans: seq<Plan>)
  {
    forall p, q :: p in plans && q in plans && t.sha256(t.planText(p)) == t.sha256(t.planText(q)) ==>
      t.planText(p) == t.planText(q)
  }

  /** A plan as far as its name and its canonical text tell. */
  datatype Written = Written(name: string, text: string)

  function WrittenPlans(t: Tools, plans: seq<Plan>): seq<Written>
  {
    Map((p: Plan) => Written(p.name, t.planText(p)), plans)
  }

  function WrittenListing(t: Tools, w: Written): Listing
  {
    Listing(w.name, t.sha256(w.text))
  }

  /** Where digests do not collide, two lists of plans have the same listings exactly when their texts are the same. */
  lemma ListingsOfTexts(t: Tools, a: seq<Plan>, b: seq<Plan>)
    requires NoCollision(t, a + b)
    ensures multiset(PlanListings(t, a)) == multiset(PlanListings(t, b))
       <==> multiset(WrittenPlans(t, a)) == multiset(WrittenPlans(t, b))
  {
    hide Map;
    var list := (w: Written) => WrittenListing(t, w);
    var x, y := WrittenPlans(t, a), WrittenPlans(t, b);
    assert Map(list, x) == PlanListings(t, a) && Map(list, y) == PlanListings(t, b);
    forall v: Written, w: Written | v in x + y && w in x + y && list(v) == list(w)
      ensures v == w
    {
      var p := WrittenOf(t, a, b, v);
      var q := WrittenOf(t, a, b, w);
    }
    InjectiveMapMultiset(list, x, y);
  }

  lemma WrittenOf(t: Tools, a: seq<Plan>, b: seq<Plan>, w: Written) returns (p: Plan)
    requires w in WrittenPlans(t, a) + WrittenPlans(t, b)
    ensures p in a + b && w == Written(p.name, t.planText(p))
  {
    hide Map;
    var x, y := WrittenPlans(t, a), WrittenPlans(t, b);
    if w in x {
      var i :| 0 <= i < |x| && x[i] == w;
      p := a[i];
    } else {
      var i :| 0 <= i < |y| && y[i] == w;
      p := b[i];
    }
  }

  /**
   Where the digests of the plans that are compared do not collide, the selection passes exactly when the candidate's
   plans have distinct names and are, in canonical form, a permutation of the own plans of the unblocked capabilities.
   */
  lemma SelectedPlansThemselves(t: Tools, candidate: Candidate, cs: seq<Capability>)
    requires DigestsAreHashes(t) && t.parse(candidate.manifest).Some?
    requires NoCollision(t, t.parse(candidate.manifest).value.plans + OwnPlans(Unblocked(cs)))
    ensures ExactSelection(t, candidate, cs) <==>
      var plans := t.parse(candidate.manifest).value.plans;
      && Unblocked(cs) != [] && Distinct(PlanNames(plans))
      && (forall i :: 0 <= i < |Unblocked(cs)| ==> Consistent(t, Unblocked(cs)[i]))
      && multiset(WrittenPlans(t, plans)) == multiset(WrittenPlans(t, OwnPlans(Unblocked(cs))))
  {
    hide ExactSelection, Filter, IsHash, Consistent, Map, Sort, NoCollision;
    ExactSelectionExactly(t, candidate, cs);
    var plans, selected := t.parse(candidate.manifest).value.plans, Unblocked(cs);
    if forall i :: 0 <= i < |selected| ==> Consistent(t, selected[i]) {
      OwnListings(t, selected);
      ListingsOfTexts(t, plans, OwnPlans(selected));
    }
  }

  /** In a list of capabilities with distinct names, blocking is a matter of the name. */
  lemma BlockedByName(cs: seq<Capability>, c: Capability)
    requires Distinct(CapabilityNames(cs)) && c in cs
    ensures IsUnblocked(c) <==> c.stableName in Members(CapabilityNames(Unblocked(cs)))
  {
    hide Filter, Map;
    var open, names := Unblocked(cs), CapabilityNames(Unblocked(cs));
    if IsUnblocked(c) {
      assert c in open;
      var k :| 0 <= k < |open| && open[k] == c;
      assert names[k] == c.stableName;
    }
    if c.stableName in Members(names) {
      var k :| 0 <= k < |names| && names[k] == c.stableName;
      assert open[k] in open;
      var i :| 0 <= i < |cs| && cs[i] == c;
      var j :| 0 <= j < |cs| && cs[j] == open[k];
      assert CapabilityNames(cs)[i] == CapabilityNames(cs)[j];
      assert i == j;
    }
  }

  /** Removing the plans of blocked capabilities leaves the plans of the others. */
  lemma NarrowedListings(t: Tools, plans: seq<Plan>, cs: seq<Capability>, keep: Plan -> bool)
    requires multiset(PlanListings(t, plans)) == multiset(CapabilityListings(cs)) && Distinct(PlanNames(plans))
    requires forall p: Plan :: keep(p) <==> p.name in Members(CapabilityNames(Unblocked(cs)))
    ensures multiset(PlanListings(t, Filter(keep, plans))) == multiset(CapabilityListings(Unblocked(cs)))
  {
    hide Map, Filter;
    SameNames(t, plans, cs);
    SameDistinct(PlanNames(plans), CapabilityNames(cs));
    var selected := Members(CapabilityNames(Unblocked(cs)));
    var keepListing := (l: Listing) => l.name in selected;
    FilterMap(p => PlanListing(t, p), keep, keepListing, plans);
    forall c | c in cs
      ensures IsUnblocked(c) == keepListing(CapabilityListing(c))
    {
      BlockedByName(cs, c);
    }
    FilterMap(c => CapabilityListing(c), IsUnblocked, keepListing, cs);
    FilterMultiset(keepListing, PlanListings(t, plans), CapabilityListings(cs));
  }

  lemma NamesCons(p: Plan, rest: seq<Plan>)
    ensures PlanNames([p] + rest) == [p.name] + PlanNames(rest)
  {
    assert ([p] + rest)[1..] == rest;
  }

  lemma KeptNames(keep: Plan -> bool, plans: seq<Plan>, name: string)
    requires name !in PlanNames(plans)
    ensures name !in PlanNames(Filter(keep, plans))
  {
    hide Map, Filter;
    var kept := Filter(keep, plans);
    forall k | 0 <= k < |kept|
      ensures PlanNames(kept)[k] != name
    {
      assert kept[k] in kept;
      var i :| 0 <= i < |plans| && plans[i] == kept[k];
      assert PlanNames(plans)[i] == PlanNames(kept)[k];
    }
  }

  lemma {:induction false} FilterDistinct(keep: Plan -> bool, plans: seq<Plan>)
    requires Distinct(PlanNames(plans))
    ensures Distinct(PlanNames(Filter(keep, plans)))
  {
    hide PlanNames, Distinct;
    if plans != [] {
      var p, rest := plans[0], plans[1..];
      assert plans == [p] + rest;
      NamesCons(p, rest);
      DistinctHead(p.name, PlanNames(rest));
      FilterDistinct(keep, rest);
      KeptNames(keep, rest, p.name);
      NamesCons(p, Filter(keep, rest));
      DistinctCons(p.name, PlanNames(Filter(keep, rest)));
    } else {
      assert Filter(keep, plans) == plans;
    }
  }

  /** The plans that are kept of a canonical source are, by name and digest, those of the unblocked capabilities. */
  lemma KeptOfCanonical(t: Tools, origin: Option<string>, release: Candidate, cs: seq<Capability>)
    requires DigestsAreHashes(t) && Canonical(t, origin, release, cs)
    ensures var kept := KeptPlans(t.parse(release.manifest).value.plans, cs);
      Distinct(PlanNames(kept)) && SamePlans(t, kept, Unblocked(cs))
  {
    hide Map, Filter, Sort, Consistent, IsHash;
    var plans := t.parse(release.manifest).value.plans;
    MatchIsPermutation(t, plans, cs);
    MembersSize(PlanNames(plans));
    var selected := Members(CapabilityNames(Unblocked(cs)));
    var keep := (p: Plan) => p.name in selected;
    NarrowedListings(t, plans, cs, keep);
    FilterDistinct(keep, plans);
    forall i | 0 <= i < |Unblocked(cs)|
      ensures Consistent(t, Unblocked(cs)[i])
    {
      assert Unblocked(cs)[i] in cs;
    }
  }

  /** A candidate that is not the source itself was compiled from exactly the plans of the unblocked capabilities. */
  lemma NarrowedIsUnblocked(t: Tools, origin: Option<string>, release: Candidate, cs: seq<Capability>)
    requires DigestsAreHashes(t)
    ensures var candidate := Narrowed(t, origin, release, cs);
      candidate != release ==>
        exists plans :: t.compile(1, plans) == Some(candidate)
          && Distinct(PlanNames(plans)) && SamePlans(t, plans, Unblocked(cs))
  {
    hide Canonical, KeptPlans, SamePlans, Distinct, IsHash;
    CanonicalParses(t, origin, release, cs);
    if Canonical(t, origin, release, cs) {
      KeptOfCanonical(t, origin, release, cs);
    }
  }

  /** The compiler keeps plans up to their order and canonical form, when it accepts them. */
  ghost predicate CompilerKeeps(t: Tools, plans: seq<Plan>)
  {
    t.compile(1, plans).Some? ==>
      && t.parse(t.compile(1, plans).value.manifest).Some?
      && multiset(PlanListings(t, t.parse(t.compile(1, plans).value.manifest).value.plans))
           == multiset(PlanListings(t, plans))
  }

  /**
   A canonical source passes the selection, once narrowed, exactly when a capability is left unblocked and either the
   compiler accepts what is left or nothing was blocked.
   */
  lemma NarrowingSelects(t: Tools, origin: Option<string>, release: Candidate, cs: seq<Capability>)
    requires DigestsAreHashes(t) && Canonical(t, origin, release, cs)
    requires CompilerKeeps(t, KeptPlans(t.parse(release.manifest).value.plans, cs))
    ensures ExactSelection(t, Narrowed(t, origin, release, cs), cs) <==>
      && Unblocked(cs) != []
      && (t.compile(1, KeptPlans(t.parse(release.manifest).value.plans, cs)).Some? || Unblocked(cs) == cs)
  {
    hide Map, Filter, Sort, Consistent, IsHash, KeptPlans, ExactSelection, Canonical;
    CanonicalParses(t, origin, release, cs);
    KeptOfCanonical(t, origin, release, cs);
    ExactSelectionExactly(t, Narrowed(t, origin, release, cs), cs);
    var kept := KeptPlans(t.parse(release.manifest).value.plans, cs);
    if t.compile(1, kept).Some? {
      SameListedNames(t, kept, t.parse(t.compile(1, kept).value.manifest).value.plans);
    } else {
      SourceSelects(t, origin, release, cs);
    }
  }

  lemma SameListedNames(t: Tools, a: seq<Plan>, b: seq<Plan>)
    requires multiset(PlanListings(t, a)) == multiset(PlanListings(t, b))
    ensures Distinct(PlanNames(a)) <==> Distinct(PlanNames(b))
  {
    var name := (l: Listing) => l.name;
    MapMultiset(name, PlanListings(t, a), PlanListings(t, b));
    assert Map(name, PlanListings(t, a)) == PlanNames(a) && Map(name, PlanListings(t, b)) == PlanNames(b);
    SameDistinct(PlanNames(a), PlanNames(b));
  }

  /** The canonical source itself holds the plans of the unblocked capabilities exactly when nothing is blocked. */
  lemma SourceSelects(t: Tools, origin: Option<string>, release: Candidate, cs: seq<Capability>)
    requires DigestsAreHashes(t) && Canonical(t, origin, release, cs)
    ensures var plans := t.parse(release.manifest).value.plans;
      && Distinct(PlanNames(plans)) && (SamePlans(t, plans, Unblocked(cs)) <==> Unblocked(cs) == cs)
  {
    hide Map, Filter, Sort, Consistent, IsHash;
    var plans := t.parse(release.manifest).value.plans;
    MatchIsPermutation(t, plans, cs);
    MembersSize(PlanNames(plans));
    FilterShorter(IsUnblocked, cs);
    if SamePlans(t, plans, Unblocked(cs)) {
      assert |multiset(CapabilityListings(cs))| == |multiset(CapabilityListings(Unblocked(cs)))|;
    }
  }

  /** All three replays pass exactly when each reproduces the candidate's code and digest. */
  lemma ReplaysExactly(t: Tools, origin: Option<string>, candidate: Candidate)
    ensures ReplayPasses(t, origin, candidate) <= REPLAYS
    ensures ReplayPasses(t, origin, candidate) == REPLAYS <==>
      && SameOrigin(t, origin, candidate)
      && var plans := t.parse(candidate.manifest).value.plans;
      forall k :: 0 <= k < REPLAYS ==> Replayed(t, k, plans, candidate.code, t.sha256(candidate.code))
  {
    if SameOrigin(t, origin, candidate) {
      var plans := t.parse(candidate.manifest).value.plans;
      ReplaysFrom(t, plans, candidate.code, t.sha256(candidate.code), 0);
    }
  }

  lemma {:induction false} ReplaysFrom(t: Tools, plans: seq<Plan>, code: string, digest: string, k: nat)
    requires k <= REPLAYS
    ensures var n := Replays(t, plans, code, digest, k);
      && (n.Some? ==> n.value <= REPLAYS - k)
      && (n == Some(REPLAYS - k) <==> forall i :: k <= i < REPLAYS ==> Replayed(t, i, plans, code, digest))
    decreases REPLAYS - k
  {
    if k < REPLAYS {
      ReplaysFrom(t, plans, code, digest, k + 1);
      assert Replayed(t, k, plans, code, digest) ==> t.compile(2 + k, plans).Some?;
    }
  }

  // ---- The tests, said without their own words ----

  /** Of the capabilities exactly those that are not blocked are left. */
  lemma UnblockedExactly(cs: seq<Capability>, c: Capability)
    ensures multiset(Unblocked(cs))[c] == if c.blocked then 0 else multiset(cs)[c]
  {
    FilterCount(IsUnblocked, cs, c);
  }

  /** Of the plans exactly those stay whose name an unblocked capability has. */
  lemma KeptExactly(plans: seq<Plan>, cs: seq<Capability>, p: Plan)
    ensures multiset(KeptPlans(plans, cs))[p]
         == if exists c :: c in cs && !c.blocked && c.stableName == p.name then multiset(plans)[p] else 0
  {
    hide Map, Filter;
    var open := Unblocked(cs);
    var selected := Members(CapabilityNames(open));
    FilterCount((q: Plan) => q.name in selected, plans, p);
    if c :| c in cs && !c.blocked && c.stableName == p.name {
      var i :| 0 <= i < |open| && open[i] == c;
      assert CapabilityNames(open)[i] == p.name;
    }
    if p.name in selected {
      var i :| 0 <= i < |open| && CapabilityNames(open)[i] == p.name;
      assert open[i] in open;
    }
  }

  /** The plans and the capabilities agree by name and digest, and each capability with the plan it holds. */
  lemma SamePlansExactly(t: Tools, plans: seq<Plan>, cs: seq<Capability>)
    ensures SamePlans(t, plans, cs) <==>
      && (forall c :: c in cs ==>
            && c.stableName == c.plan.name && c.riskTier == c.plan.riskTier
            && c.planDigest == t.sha256(t.planText(c.plan)))
      && multiset(seq(|plans|, i requires 0 <= i < |plans| => (plans[i].name, t.sha256(t.planText(plans[i])))))
           == multiset(seq(|cs|, i requires 0 <= i < |cs| => (cs[i].stableName, cs[i].planDigest)))
  {
    hide Map;
    var pair := (l: Listing) => (l.name, l.digest);
    var a, b := PlanListings(t, plans), CapabilityListings(cs);
    assert Map(pair, a) == seq(|plans|, i requires 0 <= i < |plans| => (plans[i].name, t.sha256(t.planText(plans[i]))));
    assert Map(pair, b) == seq(|cs|, i requires 0 <= i < |cs| => (cs[i].stableName, cs[i].planDigest));
    InjectiveMapMultiset(pair, a, b);
    assert (forall i :: 0 <= i < |cs| ==> Consistent(t, cs[i])) <==> forall c :: c in cs ==> Consistent(t, c);
  }

  /** A release is narrowed exactly when it is what the compiler makes of all capabilities' plans, for this origin. */
  lemma CanonicalExactly(t: Tools, origin: Option<string>, release: Candidate, cs: seq<Capability>)
    requires DigestsAreHashes(t)
    ensures Canonical(t, origin, release, cs) <==>
      && t.parse(release.manifest).Some?
      && var m := t.parse(release.manifest).value;
      && origin == Some(release.allowedOrigin) && m.targetOrigin == release.allowedOrigin
      && Distinct(PlanNames(m.plans)) && SamePlans(t, m.plans, cs)
      && t.compile(0, m.plans).Some?
      && t.compile(0, m.plans).value.code == release.code
      && t.compile(0, m.plans).value.contentHash == release.contentHash
  {
    hide Map, Sort, Consistent, IsHash;
    if t.parse(release.manifest).Some? {
      var plans := t.parse(release.manifest).value.plans;
      MembersSize(PlanNames(plans));
      MatchIsPermutation(t, plans, cs);
      SortedEqualIffPermutation(CapabilityNames(cs), PlanNames(plans));
      if SamePlans(t, plans, cs) {
        SameNames(t, plans, cs);
      }
    }
  }

  /** The candidate is the source, or what the compiler makes of the plans that are kept of a canonical source. */
  lemma NarrowedExactly(t: Tools, origin: Option<string>, release: Candidate, cs: seq<Capability>)
    ensures Canonical(t, origin, release, cs) ==> t.parse(release.manifest).Some?
    ensures Narrowed(t, origin, release, cs) ==
      if !Canonical(t, origin, release, cs) then release
      else
        var made := t.compile(1, KeptPlans(t.parse(release.manifest).value.plans, cs));
        if made.Some? then made.value else release
  {
    hide Canonical, KeptPlans;
    CanonicalParses(t, origin, release, cs);
  }
}
