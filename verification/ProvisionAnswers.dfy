/** Which answer comes out of preflight, of a review and of the gate, each as a condition on the records. */
module ProvisionAnswers {
  import opened Wrappers
  import opened OrderedDicts
  import opened ResourceScopes
  import opened ScopeAccess
  import opened Governance
  import opened ProviderBindings
  import opened ContextDigests
  import opened ProvisionPlans

  // ---------- Preflight ----------

  ghost predicate ScopeIsActive(registry: Registry, scopeId: string) {
    scopeId in registry.byScopeId && AllActive(registry.byScopeId[scopeId])
  }

  /** The question put to governance about a binding, before any approval. */
  function Governed(registry: Registry, req: PreflightRequest, b: CloudBinding): GovernanceRequest
    requires req.authorization.scopeId in registry.byScopeId
  {
    GovernanceRequest(
      registry.byScopeId[req.authorization.scopeId], b.provider.Name(), req.authorization.action, false)
  }

  ghost predicate HasCandidate(bindings: CloudBindings, req: PreflightRequest) {
    exists b :: IsSoleCandidate(bindings, req.authorization.scopeId, req.eligible, b)
  }

  /** There is one candidate, and the policies have these things to say about it. */
  ghost predicate CandidateIs(
    registry: Registry, bindings: CloudBindings, policies: seq<Policy>, req: PreflightRequest,
    unopposed: bool, asked: bool)
    requires req.authorization.scopeId in registry.byScopeId
  {
    exists b ::
      && IsSoleCandidate(bindings, req.authorization.scopeId, req.eligible, b)
      && NobodyObjects(policies, Governed(registry, req, b)) == unopposed
      && SomebodyAsks(policies, Governed(registry, req, b)) == asked
  }

  lemma JudgedCandidate(
    registry: Registry, bindings: CloudBindings, policies: seq<Policy>, req: PreflightRequest)
    requires RegistriesOk(registry, bindings) && req.authorization.scopeId in registry.byScopeId
    ensures var resolved := ResolveBinding(bindings, req.authorization.scopeId, req.eligible);
            && (HasCandidate(bindings, req) <==> resolved.Some?)
            && (resolved.Some? ==>
                  forall unopposed, asked ::
                    CandidateIs(registry, bindings, policies, req, unopposed, asked) <==>
                    && NobodyObjects(policies, Governed(registry, req, resolved.value)) == unopposed
                    && SomebodyAsks(policies, Governed(registry, req, resolved.value)) == asked)
  {
    var scopeId := req.authorization.scopeId;
    forall b
      ensures IsSoleCandidate(bindings, scopeId, req.eligible, b) <==>
              ResolveBinding(bindings, scopeId, req.eligible) == Some(b)
    {
      ResolvesExactlyTheOnlyCandidate(bindings, scopeId, req.eligible, b);
    }
  }

  /**
   * Non-routable without an active scope or, for an authorized request, without a sole candidate; denied to anybody
   * else, and when a policy objects to the candidate; otherwise approval is required exactly when a policy asks.
   */
  lemma PreflightAnswers(
    registry: Registry, roles: RoleBindings, dir: Directory, bindings: CloudBindings, policies: seq<Policy>,
    req: PreflightRequest)
    requires RegistriesOk(registry, bindings)
    ensures var answer := Preflight(registry, roles, dir, bindings, policies, req);
            var scopeId := req.authorization.scopeId;
            var holds := Holds(registry, roles, dir, req.authorization);
            && answer.Ok?
            && (answer.value.NonRoutable? <==>
                  !ScopeIsActive(registry, scopeId) || (holds && !HasCandidate(bindings, req)))
            && (answer.value.Denied? <==>
                  && ScopeIsActive(registry, scopeId)
                  && (|| !holds
                      || CandidateIs(registry, bindings, policies, req, false, false)
                      || CandidateIs(registry, bindings, policies, req, false, true)))
            && (answer.value.NeedsApproval? <==>
                  holds && CandidateIs(registry, bindings, policies, req, true, true))
            && (answer.value.Ready? <==>
                  holds && CandidateIs(registry, bindings, policies, req, true, false))
  {
    PreflightNeverRaises(registry, roles, dir, bindings, policies, req);
    AuthorizeIffHolds(registry, roles, dir, req.authorization);
    ResolveActiveMeaning(registry, req.authorization.scopeId);
    if ScopeIsActive(registry, req.authorization.scopeId) {
      JudgedCandidate(registry, bindings, policies, req);
      var resolved := ResolveBinding(bindings, req.authorization.scopeId, req.eligible);
      if resolved.Some? {
        DecisionMeaning(policies, Governed(registry, req, resolved.value));
      }
    }
  }

  // ---------- Sealing ----------

  /** Sealing refuses in this order, and otherwise copies what the records and the decisions say. */
  lemma SealAnswers(
    scope: ResourceScope, authorization: AuthorizationDecision, governance: GovernanceDecision, binding: CloudBinding)
    ensures var answer := Seal(scope, authorization, governance, binding);
            var sealable := authorization.allowed && (governance.allowed || governance.approvalRequired);
            var bound := (binding.scopeId, binding.state) == (scope.scopeId, Active);
            && (answer == Err(ScopeNotActive) <==> !AllActive(scope))
            && (answer == Err(DecisionNotSealable) <==> AllActive(scope) && !sealable)
            && (answer == Err(BindingNotActive) <==> AllActive(scope) && sealable && !bound)
            && (answer.Ok? ==>
                  && AllActive(scope) && sealable && bound
                  && answer.value.contents ==
                     Contents(
                       scope.scopeId, scope.CanonicalPath(), scope.version,
                       [BindingVersion(binding.bindingId, binding.version)],
                       authorization.matchedBindingIds, governance.matchedPolicyTargets)
                  && answer.value.IsValid())
  {
  }

  // ---------- Review ----------

  /** Every answer of a review, on what the reviewer is and sends. */
  lemma ReviewAnswers(
    registry: Registry, roles: RoleBindings, dir: Directory,
    plan: SealedPlan, requester: Principal, reviewer: Option<Principal>, response: ReviewResponse)
    ensures var answer := ReviewPlan(registry, roles, dir, plan, requester, reviewer, response);
            var approving := reviewer.Some? && reviewer.value != requester && response.verdict == "approve";
            var digests := (response.planDigest, response.approvalDigest);
            var presented := digests == (Some(plan.planDigest), Some(plan.approvalDigest));
            var mayApprove :=
              reviewer.Some? && Holds(registry, roles, dir,
                AuthorizationRequest(reviewer.value, ApproveProvision, plan.context.contents.scopeId));
            && (answer == Err(ReviewerMissing) <==> reviewer == None)
            && (answer == Err(SelfApproval) <==> reviewer == Some(requester))
            && (answer == Ok(Declined) <==>
                  reviewer.Some? && reviewer.value != requester && response.verdict != "approve")
            && (answer == Err(MalformedDigest) <==> approving && (digests.0.None? || digests.1.None?))
            && (answer == Err(DigestMismatch) <==> approving && digests.0.Some? && digests.1.Some? && !presented)
            && (answer == Err(NotAnApprover) <==> approving && presented && !mayApprove)
            && (answer.Ok? && answer.value.Approved? <==> approving && presented && mayApprove)
  {
    if reviewer.Some? {
      AuthorizeIffHolds(
        registry, roles, dir,
        AuthorizationRequest(reviewer.value, ApproveProvision, plan.context.contents.scopeId));
    }
  }

  // ---------- The gate ----------

  /** The registries still hold the scope and every binding of the contents as they were sealed. */
  ghost predicate StillCurrent(c: Contents, registry: Registry, bindings: CloudBindings) {
    && ScopeIsActive(registry, c.scopeId)
    && c.canonicalPath == registry.byScopeId[c.scopeId].CanonicalPath()
    && c.scopeVersion == registry.byScopeId[c.scopeId].version
    && forall b :: b in c.bindingVersions ==>
         && b.bindingId in bindings.at && bindings.at[b.bindingId].version == b.version
         && bindings.at[b.bindingId].scopeId == c.scopeId && bindings.at[b.bindingId].state == Active
  }

  lemma FreshIff(c: Contents, registry: Registry, bindings: CloudBindings)
    requires RegistriesOk(registry, bindings)
    ensures RequiresFreshResolution(c, ResolveActive(registry, c.scopeId), ActiveBindings(bindings, c.scopeId)) <==>
            !StillCurrent(c, registry, bindings)
  {
    forall b: BindingVersion ensures
      var current := CurrentVersions(ActiveBindings(bindings, c.scopeId), c.scopeId);
      (b.bindingId in current && current[b.bindingId] == b.version) <==>
      && b.bindingId in bindings.at && bindings.at[b.bindingId].version == b.version
      && bindings.at[b.bindingId].scopeId == c.scopeId && bindings.at[b.bindingId].state == Active
    {
      ActiveRecordById(bindings, c.scopeId, b.bindingId);
    }
  }

  /** Every answer of the gate when it is handed what the registries hold. */
  lemma GateAnswers(
    plan: SealedPlan, approval: Option<Receipt>, registry: Registry, bindings: CloudBindings,
    policies: seq<Policy>, now: int)
    requires RegistriesOk(registry, bindings) && plan.IsValid()
    ensures var c := plan.context.contents;
            var answer := Gate(
              plan, approval, ResolveActive(registry, c.scopeId), ActiveBindings(bindings, c.scopeId), policies, now);
            var approved := approval.Some? && BearsDigests(approval.value, plan);
            var current := StillCurrent(c, registry, bindings);
            var single := |c.bindingVersions| == 1;
            && (answer == Err(ApprovalMismatch) <==> !approved)
            && (answer == Err(ContextChanged) <==> approved && !current)
            && (answer == Err(NotExactlyOneBinding) <==> approved && current && !single)
            && answer != Err(BindingUnavailable)
            && (answer == Err(GovernanceRefuses) <==>
                  && approved && current && single
                  && !GovernanceStillAllows(
                       policies, registry, c.scopeId, bindings.at[c.bindingVersions[0].bindingId].provider))
  {
    var c := plan.context.contents;
    FreshIff(c, registry, bindings);
    var bv := c.bindingVersions[0];
    assert bv in c.bindingVersions;
    ActiveRecordById(bindings, c.scopeId, bv.bindingId);
    if StillCurrent(c, registry, bindings) {
      GovernanceStillAllowsMeaning(policies, registry, c.scopeId, bindings.at[bv.bindingId].provider);
    }
  }
}
