/** Which exporters the access policies approve for a client, and under which rules. */
module Approval {
  import opened Common
  import opened Selectors
  import opened LeaseTimes
  import opened LeaseModel

  const OPEN_RULE := Rule("", 0, [], None, false)

  datatype Outcome = Approvals(approved: seq<Approved>, unmatched: seq<string>) | ApprovalError

  predicate WithinRule(r: Rule, t: Times) { r.maximum.None? || Requested(t) <= r.maximum.value }

  predicate FromMatches(r: Rule, client: Labels) { exists s :: s in r.from && Accepts(s, client) }

  // ---------------------------------------------------------------- what approval means

  predicate RuleGrants(rules: seq<Rule>, r: Rule, client: Labels, t: Times) {
    r in rules && FromMatches(r, client) && WithinRule(r, t)
  }

  predicate RuleMisses(rules: seq<Rule>, d: string, client: Labels) {
    exists r :: r in rules && r.description == d && !FromMatches(r, client)
  }

  predicate Grants(p: Policy, r: Rule, e: Exporter, client: Labels, t: Times) {
    Accepts(p.exporterSelector, e.labels) && RuleGrants(p.rules, r, client, t)
  }

  /** An exporter is approved under a rule of a policy that covers it, when the client matches
      one of the rule's sources and asks for no more than the rule's maximum. */
  predicate ApprovedUnder(policies: seq<Policy>, e: Exporter, r: Rule, client: Labels, t: Times) {
    exists p :: p in policies && Grants(p, r, e, client, t)
  }

  predicate Misses(p: Policy, d: string, e: Exporter, client: Labels) {
    Accepts(p.exporterSelector, e.labels) && RuleMisses(p.rules, d, client)
  }

  /** A described rule of a policy covering `e`, none of whose sources matches the client. */
  predicate Unmatched(policies: seq<Policy>, e: Exporter, d: string, client: Labels) {
    d != "" && exists p :: p in policies && Misses(p, d, e, client)
  }

  predicate BadRule(r: Rule) { exists s :: s in r.from && !WellFormed(s) }

  /** Visiting the policy for this exporter meets a selector that cannot be converted. */
  predicate BadVisit(p: Policy, e: Exporter) {
    || !WellFormed(p.exporterSelector)
    || (Accepts(p.exporterSelector, e.labels) && exists r :: r in p.rules && BadRule(r))
  }

  /** The policy's own selector, or one of a rule's if the policy covers the exporter, is malformed. */
  predicate Offends(p: Policy, e: Exporter) {
    Malformed(p.exporterSelector)
    || (Accepts(p.exporterSelector, e.labels) && exists r, s :: r in p.rules && s in r.from && Malformed(s))
  }

  lemma BadVisitIs(p: Policy, e: Exporter)
    ensures BadVisit(p, e) <==> Offends(p, e)
  {
    forall s { WellFormedIs(s); }
    hide WellFormed, Malformed, Accepts;
    if r, s :| r in p.rules && s in r.from && Malformed(s) { assert BadRule(r); }
  }

  predicate AnyBadVisit(policies: seq<Policy>, exporters: seq<Exporter>) {
    exists e, p :: e in exporters && p in policies && BadVisit(p, e)
  }

  predicate NoDuplicates<T(==)>(s: seq<T>) { forall i, j :: 0 <= i < j < |s| ==> s[i] != s[j] }

  // ---------------------------------------------------------------- in which order, how often

  /** One approval for every matching source of a rule that allows the request. */
  function FromRule(e: Exporter, r: Rule, from: seq<Selector>, client: Labels, t: Times): seq<Approved> {
    if from == [] then []
    else FromRule(e, r, from[..|from| - 1], client, t)
         + (if Accepts(from[|from| - 1], client) && WithinRule(r, t) then [Approved(e, None, r)] else [])
  }

  function FromRules(e: Exporter, rules: seq<Rule>, client: Labels, t: Times): seq<Approved> {
    if rules == [] then []
    else var r := rules[|rules| - 1]; FromRules(e, rules[..|rules| - 1], client, t) + FromRule(e, r, r.from, client, t)
  }

  function CoveringRules(e: Exporter, p: Policy): seq<Rule> {
    if Accepts(p.exporterSelector, e.labels) then p.rules else []
  }

  function FromPolicies(e: Exporter, policies: seq<Policy>, client: Labels, t: Times): seq<Approved> {
    if policies == [] then []
    else FromPolicies(e, policies[..|policies| - 1], client, t)
         + FromRules(e, CoveringRules(e, policies[|policies| - 1]), client, t)
  }

  /** Exporter by exporter, policy by policy, rule by rule, source by source. */
  function AllApprovals(exporters: seq<Exporter>, policies: seq<Policy>, client: Labels, t: Times): seq<Approved> {
    if exporters == [] then []
    else AllApprovals(exporters[..|exporters| - 1], policies, client, t)
         + FromPolicies(exporters[|exporters| - 1], policies, client, t)
  }

  lemma {:induction false} FromRuleHas(e: Exporter, r: Rule, from: seq<Selector>, client: Labels, t: Times, a: Approved)
    ensures a in FromRule(e, r, from, client, t) <==>
            a == Approved(e, None, r) && WithinRule(r, t) && exists s :: s in from && Accepts(s, client)
  {
    if from != [] {
      var n := |from| - 1;
      assert from == from[..n] + [from[n]];
      FromRuleHas(e, r, from[..n], client, t, a);
    }
  }

  lemma {:induction false} FromRulesHas(e: Exporter, rules: seq<Rule>, client: Labels, t: Times, a: Approved)
    ensures a in FromRules(e, rules, client, t) <==>
            a.exporter == e && a.existing.None? && RuleGrants(rules, a.rule, client, t)
  {
    if rules != [] {
      var n := |rules| - 1;
      assert rules == rules[..n] + [rules[n]];
      FromRulesHas(e, rules[..n], client, t, a);
      FromRuleHas(e, rules[n], rules[n].from, client, t, a);
    }
  }

  lemma {:induction false} FromPoliciesHas(e: Exporter, policies: seq<Policy>, client: Labels, t: Times, a: Approved)
    ensures a in FromPolicies(e, policies, client, t) <==>
            a.exporter == e && a.existing.None? && ApprovedUnder(policies, e, a.rule, client, t)
  {
    if policies != [] {
      var n := |policies| - 1;
      assert policies == policies[..n] + [policies[n]];
      FromPoliciesHas(e, policies[..n], client, t, a);
      FromRulesHas(e, CoveringRules(e, policies[n]), client, t, a);
      assert ApprovedUnder(policies, e, a.rule, client, t) <==>
             ApprovedUnder(policies[..n], e, a.rule, client, t) || Grants(policies[n], a.rule, e, client, t);
    }
  }

  /** The approvals listed are those that approval means. */
  lemma {:induction false} AllApprovalsHas(exporters: seq<Exporter>, policies: seq<Policy>, client: Labels, t: Times, a: Approved)
    ensures a in AllApprovals(exporters, policies, client, t) <==>
            a.existing.None? && a.exporter in exporters && ApprovedUnder(policies, a.exporter, a.rule, client, t)
  {
    if exporters != [] {
      var n := |exporters| - 1;
      assert exporters == exporters[..n] + [exporters[n]];
      AllApprovalsHas(exporters[..n], policies, client, t, a);
      FromPoliciesHas(exporters[n], policies, client, t, a);
    }
  }

  // ---------------------------------------------------------------- the nested loops

  /** The slices and the set the loops fill. */
  datatype Found = Found(approved: seq<Approved>, unmatched: seq<string>, seen: set<string>)

  ghost predicate WellKept(f: Found) {
    && NoDuplicates(f.unmatched)
    && (forall d :: d in f.seen <==> d in f.unmatched)
    && "" !in f.seen
  }

  /** `after` has also seen the descriptions these rules of a covering policy miss. */
  ghost predicate SeesRules(before: Found, after: Found, rules: seq<Rule>, client: Labels) {
    forall d :: d in after.seen <==> d in before.seen || (d != "" && RuleMisses(rules, d, client))
  }

  /** The same for whole policies, those that do not cover the exporter included. */
  ghost predicate SeesPolicies(before: Found, after: Found, e: Exporter, policies: seq<Policy>, client: Labels) {
    forall d :: d in after.seen <==> d in before.seen || Unmatched(policies, e, d, client)
  }

  /** The rule's sources, in order: one approval per source that matches. */
  method VisitRule(e: Exporter, r: Rule, client: Labels, t: Times, before: Found)
    returns (ok: bool, after: Found)
    requires WellKept(before)
    ensures ok == !BadRule(r)
    ensures ok ==> WellKept(after) && SeesRules(before, after, [r], client)
    ensures ok ==> after.approved == before.approved + FromRule(e, r, r.from, client, t)
  {
    hide WellFormed, Accepts;
    var clientMatched := false;
    after := before;
    for i := 0 to |r.from|
      invariant forall j :: 0 <= j < i ==> WellFormed(r.from[j])
      invariant clientMatched <==> exists j :: 0 <= j < i && Accepts(r.from[j], client)
      invariant after.unmatched == before.unmatched && after.seen == before.seen
      invariant after.approved == before.approved + FromRule(e, r, r.from[..i], client, t)
    {
      if !WellFormed(r.from[i]) {
        assert r.from[i] in r.from;
        return false, after;
      }
      assert r.from[..i + 1][..i] == r.from[..i];
      if Accepts(r.from[i], client) {
        clientMatched := true;
        if r.maximum.Some? && Requested(t) > r.maximum.value { continue; }
        after := after.(approved := after.approved + [Approved(e, None, r)]);
      }
    }
    assert r.from[..|r.from|] == r.from;
    assert clientMatched <==> FromMatches(r, client);
    if !clientMatched && r.description != "" && r.description !in after.seen {
      after := after.(unmatched := after.unmatched + [r.description], seen := after.seen + {r.description});
    }
    assert r in [r];
    ok := true;
  }

  lemma Appended(before: seq<Approved>, x: seq<Approved>, y: seq<Approved>, xy: seq<Approved>)
    requires xy == x + y
    ensures (before + x) + y == before + xy
  {
  }

  lemma SeesRulesExtend(before: Found, mid: Found, after: Found, rules: seq<Rule>, i: nat, client: Labels)
    requires i < |rules| && SeesRules(before, mid, rules[..i], client) && SeesRules(mid, after, [rules[i]], client)
    ensures SeesRules(before, after, rules[..i + 1], client)
  {
    assert rules[..i + 1] == rules[..i] + [rules[i]];
    assert forall d :: RuleMisses(rules[..i + 1], d, client) <==>
                       RuleMisses(rules[..i], d, client) || RuleMisses([rules[i]], d, client);
  }

  lemma FromRulesExtend(e: Exporter, rules: seq<Rule>, i: nat, client: Labels, t: Times)
    requires i < |rules|
    ensures FromRules(e, rules[..i + 1], client, t) ==
            FromRules(e, rules[..i], client, t) + FromRule(e, rules[i], rules[i].from, client, t)
  {
    assert rules[..i + 1][..i] == rules[..i];
  }

  method VisitPolicy(e: Exporter, p: Policy, client: Labels, t: Times, before: Found)
    returns (ok: bool, after: Found)
    requires WellKept(before)
    ensures ok == !BadVisit(p, e)
    ensures ok ==> WellKept(after) && SeesRules(before, after, CoveringRules(e, p), client)
    ensures ok ==> after.approved == before.approved + FromRules(e, CoveringRules(e, p), client, t)
  {
    hide FromRule, WellFormed, Accepts, BadRule;
    after := before;
    if !WellFormed(p.exporterSelector) { return false, after; }
    ok := true;
    if !Accepts(p.exporterSelector, e.labels) { return; }
    for i := 0 to |p.rules|
      invariant ok && forall j :: 0 <= j < i ==> !BadRule(p.rules[j])
      invariant WellKept(after) && SeesRules(before, after, p.rules[..i], client)
      invariant after.approved == before.approved + FromRules(e, p.rules[..i], client, t)
    {
      hide FromRules, SeesRules, WellKept;
      ghost var mid := after;
      ok, after := VisitRule(e, p.rules[i], client, t, after);
      if !ok {
        assert p.rules[i] in p.rules && BadRule(p.rules[i]);
        return;
      }
      SeesRulesExtend(before, mid, after, p.rules, i, client);
      FromRulesExtend(e, p.rules, i, client, t);
      Appended(before.approved, FromRules(e, p.rules[..i], client, t), FromRule(e, p.rules[i], p.rules[i].from, client, t),
               FromRules(e, p.rules[..i + 1], client, t));
    }
    assert p.rules[..|p.rules|] == p.rules;
  }

  lemma SeesPoliciesExtend(before: Found, mid: Found, after: Found, e: Exporter, policies: seq<Policy>, i: nat, client: Labels)
    requires i < |policies| && SeesPolicies(before, mid, e, policies[..i], client)
    requires SeesRules(mid, after, CoveringRules(e, policies[i]), client)
    ensures SeesPolicies(before, after, e, policies[..i + 1], client)
  {
    var p := policies[i];
    assert policies[..i + 1] == policies[..i] + [p];
    assert forall d :: Unmatched(policies[..i + 1], e, d, client) <==>
                       Unmatched(policies[..i], e, d, client) || (d != "" && Misses(p, d, e, client));
  }

  lemma FromPoliciesExtend(e: Exporter, policies: seq<Policy>, i: nat, client: Labels, t: Times)
    requires i < |policies|
    ensures FromPolicies(e, policies[..i + 1], client, t) ==
            FromPolicies(e, policies[..i], client, t) + FromRules(e, CoveringRules(e, policies[i]), client, t)
  {
    assert policies[..i + 1][..i] == policies[..i];
  }

  method VisitExporter(e: Exporter, policies: seq<Policy>, client: Labels, t: Times, before: Found)
    returns (ok: bool, after: Found)
    requires WellKept(before)
    ensures ok <==> forall p :: p in policies ==> !BadVisit(p, e)
    ensures ok ==> WellKept(after) && SeesPolicies(before, after, e, policies, client)
    ensures ok ==> after.approved == before.approved + FromPolicies(e, policies, client, t)
  {
    hide FromRules, BadVisit, CoveringRules, Accepts, WellFormed;
    after, ok := before, true;
    for i := 0 to |policies|
      invariant ok && forall j :: 0 <= j < i ==> !BadVisit(policies[j], e)
      invariant WellKept(after) && SeesPolicies(before, after, e, policies[..i], client)
      invariant after.approved == before.approved + FromPolicies(e, policies[..i], client, t)
    {
      hide FromPolicies, SeesPolicies, SeesRules, WellKept;
      ghost var mid := after;
      ok, after := VisitPolicy(e, policies[i], client, t, after);
      if !ok {
        assert policies[i] in policies;
        return;
      }
      SeesPoliciesExtend(before, mid, after, e, policies, i, client);
      FromPoliciesExtend(e, policies, i, client, t);
      Appended(before.approved, FromPolicies(e, policies[..i], client, t), FromRules(e, CoveringRules(e, policies[i]), client, t),
               FromPolicies(e, policies[..i + 1], client, t));
    }
    assert policies[..|policies|] == policies;
  }

  predicate Reported(policies: seq<Policy>, exporters: seq<Exporter>, d: string, client: Labels) {
    exists e :: e in exporters && Unmatched(policies, e, d, client)
  }

  ghost predicate SeesExporters(f: Found, policies: seq<Policy>, exporters: seq<Exporter>, client: Labels) {
    forall d :: d in f.seen <==> Reported(policies, exporters, d, client)
  }

  lemma SeesExportersExtend(before: Found, after: Found, policies: seq<Policy>, exporters: seq<Exporter>, i: nat, client: Labels)
    requires i < |exporters| && SeesExporters(before, policies, exporters[..i], client)
    requires SeesPolicies(before, after, exporters[i], policies, client)
    ensures SeesExporters(after, policies, exporters[..i + 1], client)
  {
    hide Unmatched;
    assert exporters[..i + 1] == exporters[..i] + [exporters[i]];
  }

  lemma AllApprovalsExtend(exporters: seq<Exporter>, policies: seq<Policy>, i: nat, client: Labels, t: Times)
    requires i < |exporters|
    ensures AllApprovals(exporters[..i + 1], policies, client, t) ==
            AllApprovals(exporters[..i], policies, client, t) + FromPolicies(exporters[i], policies, client, t)
  {
    assert exporters[..i + 1][..i] == exporters[..i];
  }

  /** The outermost loop. */
  method VisitExporters(exporters: seq<Exporter>, policies: seq<Policy>, client: Labels, t: Times)
    returns (ok: bool, found: Found)
    ensures ok == !AnyBadVisit(policies, exporters)
    ensures ok ==> found.approved == AllApprovals(exporters, policies, client, t)
    ensures ok ==> WellKept(found) && SeesExporters(found, policies, exporters, client)
  {
    hide BadVisit, FromPolicies, Unmatched;
    found, ok := Found([], [], {}), true;
    for i := 0 to |exporters|
      invariant ok && WellKept(found) && SeesExporters(found, policies, exporters[..i], client)
      invariant forall j, p :: 0 <= j < i && p in policies ==> !BadVisit(p, exporters[j])
      invariant found.approved == AllApprovals(exporters[..i], policies, client, t)
    {
      hide AllApprovals, SeesExporters, SeesPolicies, WellKept;
      ghost var before := found;
      ok, found := VisitExporter(exporters[i], policies, client, t, found);
      if !ok {
        assert exporters[i] in exporters;
        return;
      }
      SeesExportersExtend(before, found, policies, exporters, i, client);
      AllApprovalsExtend(exporters, policies, i, client, t);
    }
    assert exporters[..|exporters|] == exporters;
  }

  /** The approval step. Without policies every exporter is approved under the open rule;
      with policies the client must be known, and the loops list exactly the approvals that
      `ApprovedUnder` means and the descriptions that `Unmatched` means. */
  method AttachMatchingPolicies(exporters: seq<Exporter>, policies: seq<Policy>, client: Option<Labels>, t: Times)
    returns (r: Outcome)
    ensures policies == [] ==>
              r == Approvals(seq(|exporters|, i requires 0 <= i < |exporters| => Approved(exporters[i], None, OPEN_RULE)), [])
    ensures policies != [] ==> (r.ApprovalError? <==> client.None? || AnyBadVisit(policies, exporters))
    ensures policies != [] && r.Approvals? ==> r.approved == AllApprovals(exporters, policies, client.value, t)
    ensures policies != [] && r.Approvals? ==>
              && (forall a :: a in r.approved <==>
                    a.existing.None? && a.exporter in exporters && ApprovedUnder(policies, a.exporter, a.rule, client.value, t))
              && NoDuplicates(r.unmatched)
              && (forall d :: d in r.unmatched <==> Reported(policies, exporters, d, client.value))
  {
    if policies == [] {
      return Approvals(seq(|exporters|, i requires 0 <= i < |exporters| => Approved(exporters[i], None, OPEN_RULE)), []);
    }
    if client.None? { return ApprovalError; }
    var ok, found := VisitExporters(exporters, policies, client.value, t);
    if !ok { return ApprovalError; }
    r := Approvals(found.approved, found.unmatched);
    hide AllApprovals, ApprovedUnder, AnyBadVisit, Reported;
    forall a { AllApprovalsHas(exporters, policies, client.value, t, a); }
  }
}
