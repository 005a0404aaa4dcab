/** Restrictive guardrails on a Resource Scope: policies can only narrow what is allowed. */
module Governance {
  import opened Sequences
  import opened ResourceScopes
  import opened ScopeAccess

  datatype Policy = Policy(
    targetKind: TargetKind,
    targetId: string,
    allowedProviders: set<string>,
    deniedActions: set<Action>,
    requireApprovalForProvision: bool)

  datatype GovernanceRequest = GovernanceRequest(
    scope: ResourceScope, provider: string, action: Action, approvalPresent: bool)

  datatype GovernanceDecision = GovernanceDecision(
    allowed: bool, approvalRequired: bool, matchedPolicyTargets: seq<string>)

  predicate Applies(p: Policy, scope: ResourceScope) {
    p.targetId == (match p.targetKind
                   case OnOrganization => scope.organization.organizationId
                   case OnBusinessUnit => scope.businessUnit.businessUnitId
                   case OnTeam => scope.team.teamId
                   case OnProject => scope.project.projectId
                   case OnEnvironment => scope.environment.environmentId
                   case OnScope => scope.scopeId)
  }

  function ApplicablePolicies(policies: seq<Policy>, scope: ResourceScope): seq<Policy> {
    Select(policies, set p | p in policies && Applies(p, scope))
  }

  function TargetLabel(p: Policy): string {
    (match p.targetKind
     case OnScope => "scope"
     case OnOrganization => "organization"
     case OnBusinessUnit => "business_unit"
     case OnTeam => "team"
     case OnProject => "project"
     case OnEnvironment => "environment") + ":" + p.targetId
  }

  function Labels(policies: seq<Policy>): (labels: seq<string>)
    ensures |labels| == |policies|
  {
    seq(|policies|, i requires 0 <= i < |policies| => TargetLabel(policies[i]))
  }

  /** A label names the kind of its target and the target. */
  lemma LabelsTellTargetsApart(p: Policy, q: Policy)
    ensures TargetLabel(p) == TargetLabel(q) <==> p.targetKind == q.targetKind && p.targetId == q.targetId
  {
    var x, y := TargetLabel(p), TargetLabel(q);
    if x == y {
      assert x[0] == y[0];
      assert p.targetKind == q.targetKind;
      var n := |x| - |p.targetId|;
      assert x[n..] == p.targetId && y[n..] == q.targetId;
    }
  }

  /** The non-empty provider restrictions. */
  function Restrictions(policies: seq<Policy>): seq<set<string>> {
    if policies == [] then []
    else
      var allowed := policies[|policies| - 1].allowedProviders;
      Restrictions(policies[..|policies| - 1]) + (if allowed == {} then [] else [allowed])
  }

  function Intersection(sets: seq<set<string>>): set<string>
    requires sets != []
  {
    if |sets| == 1 then sets[0] else Intersection(sets[..|sets| - 1]) * sets[|sets| - 1]
  }

  function Evaluate(policies: seq<Policy>, req: GovernanceRequest): GovernanceDecision {
    var applicable := ApplicablePolicies(policies, req.scope);
    var matched := Labels(applicable);
    var restrictions := Restrictions(applicable);
    if exists p :: p in applicable && req.action in p.deniedActions then GovernanceDecision(false, false, matched)
    else if restrictions != [] && req.provider !in Intersection(restrictions) then
      GovernanceDecision(false, false, matched)
    else if && req.action.RequestProvision?
            && (exists p :: p in applicable && p.requireApprovalForProvision)
            && !req.approvalPresent
    then GovernanceDecision(false, true, matched)
    else GovernanceDecision(true, false, matched)
  }

  // ---------- What a decision means, policy by policy ----------

  /** One policy leaves the request open: it applies elsewhere, or neither denies nor restricts it away. */
  predicate Permits(p: Policy, req: GovernanceRequest) {
    Applies(p, req.scope) ==>
      req.action !in p.deniedActions && (p.allowedProviders == {} || req.provider in p.allowedProviders)
  }

  predicate AsksApproval(p: Policy, req: GovernanceRequest) {
    Applies(p, req.scope) && p.requireApprovalForProvision && req.action.RequestProvision?
  }

  ghost predicate NobodyObjects(policies: seq<Policy>, req: GovernanceRequest) {
    forall p :: p in policies ==> Permits(p, req)
  }

  ghost predicate SomebodyAsks(policies: seq<Policy>, req: GovernanceRequest) {
    exists p :: p in policies && AsksApproval(p, req)
  }

  lemma {:induction false} RestrictionsMeaning(policies: seq<Policy>)
    ensures forall s :: s in Restrictions(policies) <==>
              s != {} && exists p :: p in policies && p.allowedProviders == s
  {
    if policies != [] {
      var init, last := policies[..|policies| - 1], policies[|policies| - 1];
      RestrictionsMeaning(init);
      assert policies == init + [last];
    }
  }

  lemma {:induction false} IntersectionMeaning(sets: seq<set<string>>, x: string)
    requires sets != []
    ensures x in Intersection(sets) <==> forall s :: s in sets ==> x in s
  {
    if |sets| > 1 {
      IntersectionMeaning(sets[..|sets| - 1], x);
      assert sets == sets[..|sets| - 1] + [sets[|sets| - 1]];
    }
  }

  /** The provider check holds exactly when every non-empty restriction contains the provider. */
  lemma ProviderCheckMeaning(policies: seq<Policy>, provider: string)
    ensures (Restrictions(policies) == [] || provider in Intersection(Restrictions(policies))) <==>
            forall p :: p in policies && p.allowedProviders != {} ==> provider in p.allowedProviders
  {
    var rs := Restrictions(policies);
    RestrictionsMeaning(policies);
    if rs == [] {
      forall p | p in policies ensures p.allowedProviders == {} {
        assert p.allowedProviders !in rs;
      }
    } else {
      IntersectionMeaning(rs, provider);
      if forall p :: p in policies && p.allowedProviders != {} ==> provider in p.allowedProviders {
        forall s | s in rs ensures provider in s {
          var p :| p in policies && p.allowedProviders == s;
        }
      }
      if provider in Intersection(rs) {
        forall p | p in policies && p.allowedProviders != {} ensures provider in p.allowedProviders {
          assert p.allowedProviders in rs;
        }
      }
    }
  }

  /** The whole decision, as a question about each policy on its own. */
  lemma DecisionMeaning(policies: seq<Policy>, req: GovernanceRequest)
    ensures var d := Evaluate(policies, req);
            && (d.allowed <==> NobodyObjects(policies, req) && (SomebodyAsks(policies, req) ==> req.approvalPresent))
            && (d.approvalRequired <==>
                  NobodyObjects(policies, req) && SomebodyAsks(policies, req) && !req.approvalPresent)
  {
    var applicable := ApplicablePolicies(policies, req.scope);
    SelectMeaning(policies, set p | p in policies && Applies(p, req.scope));
    assert forall p :: p in applicable <==> p in policies && Applies(p, req.scope);
    ProviderCheckMeaning(applicable, req.provider);
    if p :| p in policies && AsksApproval(p, req) {
      assert p in applicable;
    }
    if p :| p in policies && !Permits(p, req) {
      assert p in applicable;
    }
  }

  /** `approval_required` says: refused without approval, and the approval alone would make the difference. */
  lemma ApprovalRequiredMeaning(policies: seq<Policy>, req: GovernanceRequest)
    ensures var without := Evaluate(policies, req.(approvalPresent := false));
            var with := Evaluate(policies, req.(approvalPresent := true));
            && (without.approvalRequired <==> !without.allowed && with.allowed)
            && !with.approvalRequired
            && (without.allowed ==> with.allowed)
  {
    DecisionMeaning(policies, req.(approvalPresent := false));
    DecisionMeaning(policies, req.(approvalPresent := true));
    assert NobodyObjects(policies, req.(approvalPresent := false)) <==>
           NobodyObjects(policies, req.(approvalPresent := true)) by {
      forall p | p in policies
        ensures Permits(p, req.(approvalPresent := false)) <==> Permits(p, req.(approvalPresent := true)) {}
    }
    assert SomebodyAsks(policies, req.(approvalPresent := false)) <==>
           SomebodyAsks(policies, req.(approvalPresent := true)) by {
      forall p | p in policies
        ensures AsksApproval(p, req.(approvalPresent := false)) <==> AsksApproval(p, req.(approvalPresent := true)) {}
    }
  }

  /** Policies only narrow: whatever is allowed under more applicable policies is allowed under fewer. */
  lemma MorePoliciesNeverAllowMore(fewer: seq<Policy>, more: seq<Policy>, req: GovernanceRequest)
    requires forall p :: p in fewer && Applies(p, req.scope) ==> p in more
    ensures Evaluate(more, req).allowed ==> Evaluate(fewer, req).allowed
    ensures Evaluate(more, req).approvalRequired ==>
              Evaluate(fewer, req).allowed || Evaluate(fewer, req).approvalRequired
  {
    DecisionMeaning(fewer, req);
    DecisionMeaning(more, req);
  }

  /** Neither the order nor the repetition of policies changes a decision, nor does any policy on other scopes. */
  lemma PolicyOrderDoesNotMatter(ps: seq<Policy>, qs: seq<Policy>, req: GovernanceRequest)
    requires forall p :: Applies(p, req.scope) ==> (p in ps <==> p in qs)
    ensures Evaluate(ps, req).allowed == Evaluate(qs, req).allowed
    ensures Evaluate(ps, req).approvalRequired == Evaluate(qs, req).approvalRequired
  {
    MorePoliciesNeverAllowMore(ps, qs, req);
    MorePoliciesNeverAllowMore(qs, ps, req);
  }

  /** A role binding reaches what a policy on the same target governs; above the environment, only if inherited. */
  lemma RolesReachWhatPoliciesGovern(target: Target, p: Policy, scope: ResourceScope)
    requires p.targetKind == target.kind && p.targetId == target.resourceId
    ensures TargetMatches(target, scope) <==>
            Applies(p, scope) && (target.kind.OnScope? || target.kind.OnEnvironment? || target.inheritToDescendants)
  {
  }

  /** A decision reports the targets of exactly the policies that apply. */
  lemma MatchedTargetsMeaning(policies: seq<Policy>, req: GovernanceRequest, name: string)
    ensures name in Evaluate(policies, req).matchedPolicyTargets <==>
            exists p :: p in policies && Applies(p, req.scope) && TargetLabel(p) == name
  {
    var applicable := ApplicablePolicies(policies, req.scope);
    SelectMeaning(policies, set p | p in policies && Applies(p, req.scope));
    if name in Labels(applicable) {
      var i :| 0 <= i < |applicable| && Labels(applicable)[i] == name;
      assert applicable[i] in applicable;
    }
    if p :| p in policies && Applies(p, req.scope) && TargetLabel(p) == name {
      assert p in applicable;
      var i :| 0 <= i < |applicable| && applicable[i] == p;
      assert Labels(applicable)[i] == name;
    }
  }
}
