/** The accounts of evidence that both in-memory services keep: what was issued, what is held, what was spent. */
module EvidenceAccounts {
  import opened Wrappers
  import opened Expiring
  import opened Idempotency

  /** A confirmation that was issued. */
  datatype Issue = Issue(evidence: string, held: Held<Confirmation>)

  /** Evidence that an effect was made for: what it had to confirm, and when the call swept. */
  datatype Spend = Spend(evidence: string, confirmed: Confirmation, swept: int)

  /** The confirmation that pays: same session, key and input, and not expired when the call swept. */
  predicate Covers(x: Issue, w: Spend)
  {
    x.evidence == w.evidence && x.held.value == w.confirmed && x.held.expiresAt > w.swept
  }

  predicate Covered(issued: seq<Issue>, w: Spend)
  {
    exists i :: 0 <= i < |issued| && Covers(issued[i], w)
  }

  /** Confirmations that are held were issued; those that were spent were issued, once each, and are not held. */
  ghost predicate Accounted(m: map<string, Held<Confirmation>>, issued: seq<Issue>, spent: seq<Spend>)
  {
    && (forall k :: k in m ==> Issue(k, m[k]) in issued)
    && (forall j :: 0 <= j < |spent| ==> Covered(issued, spent[j]) && spent[j].evidence !in m)
    && (forall j, k :: 0 <= j < k < |spent| ==> spent[j].evidence != spent[k].evidence)
  }

  ghost predicate Unissued(issued: seq<Issue>, evidence: string)
  {
    forall i :: 0 <= i < |issued| ==> issued[i].evidence != evidence
  }

  predicate Within(m': map<string, Held<Confirmation>>, m: map<string, Held<Confirmation>>)
  {
    forall k :: k in m' ==> k in m && m'[k] == m[k]
  }

  lemma DropKeeps(m: map<string, Held<Confirmation>>, m': map<string, Held<Confirmation>>, issued: seq<Issue>,
    spent: seq<Spend>)
    requires Accounted(m, issued, spent) && Within(m', m)
    ensures Accounted(m', issued, spent)
  {
    hide Covered;
  }

  lemma IssueKeeps(m: map<string, Held<Confirmation>>, issued: seq<Issue>, spent: seq<Spend>, x: Issue)
    requires Accounted(m, issued, spent) && Unissued(issued, x.evidence)
    ensures Accounted(m[x.evidence := x.held], issued + [x], spent)
  {
    forall j | 0 <= j < |spent|
      ensures Covered(issued + [x], spent[j]) && spent[j].evidence != x.evidence
    {
      var i: nat :| i < |issued| && Covers(issued[i], spent[j]);
      assert (issued + [x])[i] == issued[i];
    }
    assert (issued + [x])[|issued|] == x;
  }

  lemma SpendKeeps(m: map<string, Held<Confirmation>>, issued: seq<Issue>, spent: seq<Spend>, w: Spend)
    requires Accounted(m, issued, spent) && w.evidence in m
    requires m[w.evidence].expiresAt > w.swept && m[w.evidence].value == w.confirmed
    ensures Accounted(m - {w.evidence}, issued, spent + [w])
  {
    var i: nat :| i < |issued| && issued[i] == Issue(w.evidence, m[w.evidence]);
    assert Covers(issued[i], w);
    assert Covered(issued, w);
    hide Covered, Covers;
  }

  /** What one call does to the accounts, once what it sweeps or drops is gone. */
  lemma StepKeeps(m: map<string, Held<Confirmation>>, base: map<string, Held<Confirmation>>,
    m': map<string, Held<Confirmation>>, issued: seq<Issue>, spent: seq<Spend>, x: Option<Issue>, w: Option<Spend>)
    requires Accounted(m, issued, spent) && Within(base, m)
    requires x.None? || w.None?
    requires x.None? && w.None? ==> m' == base
    requires x.Some? ==> Unissued(issued, x.value.evidence) && m' == base[x.value.evidence := x.value.held]
    requires w.Some? ==>
      && w.value.evidence in base && m' == base - {w.value.evidence}
      && base[w.value.evidence].expiresAt > w.value.swept && base[w.value.evidence].value == w.value.confirmed
    ensures Accounted(m', Grown(issued, x), Grown(spent, w))
  {
    hide Accounted, Unissued, Within;
    DropKeeps(m, base, issued, spent);
    if x.Some? {
      IssueKeeps(base, issued, spent, x.value);
    } else if w.Some? {
      SpendKeeps(base, issued, spent, w.value);
    }
  }

  // ---- Evidence is issued under fresh identifiers ----

  predicate IssuedWithin(issued: seq<Issue>, used: set<string>)
  {
    forall k :: 0 <= k < |issued| ==> issued[k].evidence in used
  }

  lemma WithinMore(issued: seq<Issue>, x: Option<Issue>, used: set<string>, more: set<string>)
    requires IssuedWithin(issued, used) && used <= more && (x.Some? ==> x.value.evidence in more)
    ensures IssuedWithin(Grown(issued, x), more)
  {
  }

  lemma UnusedIsUnissued(issued: seq<Issue>, used: set<string>, evidence: string)
    requires IssuedWithin(issued, used) && evidence !in used
    ensures Unissued(issued, evidence)
  {
  }

  lemma EvidenceInjective(a: string, b: string)
    ensures Evidence(a) == Evidence(b) <==> a == b
  {
    assert Evidence(a)[4..] == a && Evidence(b)[4..] == b;
  }
}
