/** Sealed contexts, sealed plans, preflight, review of a plan, and the final gate before the executor. */
module ProvisionPlans {
  import opened Wrappers
  import opened Sequences
  import opened ResourceScopes
  import opened ScopeAccess
  import opened Governance
  import opened ProviderBindings
  import opened ContextDigests

  /**
   * SHA-256 digests as injective constructors over what they encode. The four encodings cannot meet: a
   * context's text contains the raw separator, which the plan encodings escape, and those differ in field names.
   */
  datatype Digest =
    | OfContext(text: string)
    | OfPolicy(profileId: string, version: nat)
    | OfPlan(contextDigest: Digest, policyDigest: Digest, inputs: map<string, string>)
    | OfApproval(contextDigest: Digest, policyDigest: Digest, planDigest: Digest)

  // ---------- Resolved context ----------

  datatype SealedContext = SealedContext(contents: Contents, resolutionDigest: Digest) {
    ghost predicate IsValid() {
      && contents.IsSealable()
      && resolutionDigest == OfContext(Preimage(contents))
    }

    function BindingIds(): seq<string> {
      contents.BindingIds()
    }
  }

  datatype SealError = ScopeNotActive | DecisionNotSealable | BindingNotActive | FieldOutOfRange

  function Seal(
    scope: ResourceScope, authorization: AuthorizationDecision, governance: GovernanceDecision, binding: CloudBinding)
    : Result<SealedContext, SealError>
  {
    if !scope.IsCompleteAndActive() then Err(ScopeNotActive)
    else if !authorization.allowed || (!governance.allowed && !governance.approvalRequired) then
      Err(DecisionNotSealable)
    else if binding.scopeId != scope.scopeId || !binding.state.Active? then Err(BindingNotActive)
    else
      var contents := Contents(
        scope.scopeId, scope.CanonicalPath(), scope.version, [BindingVersion(binding.bindingId, binding.version)],
        authorization.matchedBindingIds, governance.matchedPolicyTargets);
      if !contents.IsWellFormed() then Err(FieldOutOfRange)
      else Ok(SealedContext(contents, OfContext(Preimage(contents))))
  }

  /** Versions of the active bindings of a scope; a later record with the same id wins. */
  function CurrentVersions(bindings: seq<CloudBinding>, scopeId: string): map<string, nat> {
    if bindings == [] then map[]
    else
      var b := bindings[|bindings| - 1];
      var earlier := CurrentVersions(bindings[..|bindings| - 1], scopeId);
      if IsActiveFor(b, scopeId) then earlier[b.bindingId := b.version] else earlier
  }

  predicate RequiresFreshResolution(c: Contents, scope: Option<ResourceScope>, bindings: seq<CloudBinding>) {
    if scope.None? || !scope.value.IsCompleteAndActive() then true
    else if || scope.value.scopeId != c.scopeId
            || scope.value.CanonicalPath() != c.canonicalPath
            || scope.value.version != c.scopeVersion
    then true
    else
      var current := CurrentVersions(bindings, scope.value.scopeId);
      exists b :: b in c.bindingVersions && !(b.bindingId in current && current[b.bindingId] == b.version)
  }

  // ---------- Preflight ----------

  datatype PreflightRequest = PreflightRequest(authorization: AuthorizationRequest, eligible: set<CloudProvider>)

  datatype PreflightResult =
    | Ready(context: SealedContext)
    | NeedsApproval(context: SealedContext)
    | Denied
    | NonRoutable

  function Preflight(
    registry: Registry, roles: RoleBindings, dir: Directory, bindings: CloudBindings, policies: seq<Policy>,
    req: PreflightRequest)
    : Result<PreflightResult, SealError>
  {
    match ResolveActive(registry, req.authorization.scopeId)
    case None => Ok(NonRoutable)
    case Some(scope) =>
      var authorization := Authorize(registry, roles, dir, req.authorization);
      if !authorization.allowed then Ok(Denied)
      else
        match ResolveBinding(bindings, scope.scopeId, req.eligible)
        case None => Ok(NonRoutable)
        case Some(binding) =>
          var governance := Evaluate(
            policies, GovernanceRequest(scope, binding.provider.Name(), req.authorization.action, false));
          if !governance.allowed && !governance.approvalRequired then Ok(Denied)
          else
            match Seal(scope, authorization, governance, binding)
            case Err(e) => Err(e)
            case Ok(context) => Ok(if governance.approvalRequired then NeedsApproval(context) else Ready(context))
  }

  // ---------- Plan and receipt ----------

  datatype PlanPolicy = PlanPolicy(profileId: string, version: nat) {
    function PolicyDigest(): Digest {
      OfPolicy(profileId, version)
    }
  }

  datatype SealedPlan = SealedPlan(
    context: SealedContext, policy: PlanPolicy, inputs: map<string, string>, planDigest: Digest, approvalDigest: Digest)
  {
    ghost predicate IsValid() {
      context.IsValid() && this == SealPlan(context, policy, inputs)
    }
  }

  function SealPlan(context: SealedContext, policy: PlanPolicy, inputs: map<string, string>): SealedPlan {
    var planDigest := OfPlan(context.resolutionDigest, policy.PolicyDigest(), inputs);
    SealedPlan(
      context, policy, inputs, planDigest, OfApproval(context.resolutionDigest, policy.PolicyDigest(), planDigest))
  }

  datatype Receipt = Receipt(planDigest: Digest, approvalDigest: Digest, approvedBy: Principal) {
    predicate Matches(plan: SealedPlan) {
      planDigest == plan.planDigest && approvalDigest == plan.approvalDigest
    }
  }

  // ---------- Review of a plan ----------

  /** The resume body is untrusted; a digest that is not 64 hexadecimal characters is None. */
  datatype ReviewResponse = ReviewResponse(
    verdict: string, planDigest: Option<Digest>, approvalDigest: Option<Digest>)

  datatype ReviewError =
    | ReviewerMissing | SelfApproval | MalformedDigest | DigestMismatch | NotAnApprover

  datatype ReviewOutcome = Declined | Approved(receipt: Receipt)

  function ReviewPlan(
    registry: Registry, roles: RoleBindings, dir: Directory,
    plan: SealedPlan, requester: Principal, reviewer: Option<Principal>, response: ReviewResponse)
    : Result<ReviewOutcome, ReviewError>
  {
    if reviewer.None? then Err(ReviewerMissing)
    else if reviewer.value == requester then Err(SelfApproval)
    else if response.verdict != "approve" then Ok(Declined)
    else if response.planDigest.None? || response.approvalDigest.None? then Err(MalformedDigest)
    else if !Receipt(response.planDigest.value, response.approvalDigest.value, reviewer.value).Matches(plan) then
      Err(DigestMismatch)
    else if !Authorize(
              registry, roles, dir,
              AuthorizationRequest(reviewer.value, ApproveProvision, plan.context.contents.scopeId)).allowed
    then Err(NotAnApprover)
    else Ok(Approved(Receipt(plan.planDigest, plan.approvalDigest, reviewer.value)))
  }

  // ---------- The gate ----------

  datatype GateError =
    | ApprovalMismatch | ContextChanged | NotExactlyOneBinding | BindingUnavailable | GovernanceRefuses

  datatype Evidence = Evidence(
    planDigest: Digest, approvalDigest: Digest, contextDigest: Digest, bindingIds: seq<string>,
    approvedBy: Principal, recordedAt: int)

  /** `{b.binding_id: b for b in bindings}.get(id)`: the last record with the id. */
  function LastById(bindings: seq<CloudBinding>, id: string): Option<CloudBinding> {
    if bindings == [] then None
    else if bindings[|bindings| - 1].bindingId == id then Some(bindings[|bindings| - 1])
    else LastById(bindings[..|bindings| - 1], id)
  }

  /** Ok means that the executor is called with the plan. */
  function Gate(
    plan: SealedPlan, approval: Option<Receipt>, scope: Option<ResourceScope>, bindings: seq<CloudBinding>,
    policies: seq<Policy>, now: int)
    : Result<Evidence, GateError>
  {
    var contents := plan.context.contents;
    if approval.None? || !approval.value.Matches(plan) then Err(ApprovalMismatch)
    else if RequiresFreshResolution(contents, scope, bindings) then Err(ContextChanged)
    else if |contents.bindingVersions| != 1 then Err(NotExactlyOneBinding)
    else
      match LastById(bindings, contents.bindingVersions[0].bindingId)
      case None => Err(BindingUnavailable)
      case Some(selected) =>
        if !Evaluate(policies, GovernanceRequest(scope.value, selected.provider.Name(), RequestProvision, true)).allowed
        then Err(GovernanceRefuses)
        else
          Ok(Evidence(
               plan.planDigest, plan.approvalDigest, plan.context.resolutionDigest, plan.context.BindingIds(),
               approval.value.approvedBy, now))
  }

  // ---------- Preflight satisfies every guard of Seal ----------

  /** What the registries guarantee about their records. */
  ghost predicate RegistriesOk(registry: Registry, bindings: CloudBindings) {
    && (forall id :: id in registry.byScopeId ==>
          registry.byScopeId[id].scopeId == id && registry.byScopeId[id].IsWellFormed())
    && KeyedById(bindings)
  }

  /** A sealing preflight, spelled out: the context describes the records it was decided on. */
  ghost predicate Describes(
    context: SealedContext, registry: Registry, bindings: CloudBindings, scopeId: string, provider: CloudProvider)
  {
    var c := context.contents;
    && context.IsValid()
    && c.scopeId == scopeId
    && scopeId in registry.byScopeId
    && AllActive(registry.byScopeId[scopeId])
    && c.canonicalPath == registry.byScopeId[scopeId].CanonicalPath()
    && c.scopeVersion == registry.byScopeId[scopeId].version
    && |c.bindingVersions| == 1
    && var id := c.bindingVersions[0].bindingId;
    && id in bindings.at
    && bindings.at[id].scopeId == scopeId && bindings.at[id].state == Active
    && bindings.at[id].version == c.bindingVersions[0].version
    && bindings.at[id].provider == provider
  }

  function ContextOf(r: PreflightResult): Option<SealedContext> {
    match r
    case Ready(context) => Some(context)
    case NeedsApproval(context) => Some(context)
    case _ => None
  }

  /**
   * Preflight never raises. A context comes out exactly of an authorized request whose scope has one
   * eligible active binding that governance allows, or would allow with an approval.
   */
  lemma PreflightNeverRaises(
    registry: Registry, roles: RoleBindings, dir: Directory, bindings: CloudBindings, policies: seq<Policy>,
    req: PreflightRequest)
    requires RegistriesOk(registry, bindings)
    ensures Preflight(registry, roles, dir, bindings, policies, req).Ok?
    ensures ContextOf(Preflight(registry, roles, dir, bindings, policies, req).value).Some? <==>
            && Holds(registry, roles, dir, req.authorization)
            && var binding := ResolveBinding(bindings, req.authorization.scopeId, req.eligible);
            && binding.Some?
            && Evaluate(policies, GovernanceRequest(
                 registry.byScopeId[req.authorization.scopeId], binding.value.provider.Name(),
                 req.authorization.action, true)).allowed
  {
    AuthorizeIffHolds(registry, roles, dir, req.authorization);
    if Holds(registry, roles, dir, req.authorization) {
      var scope := registry.byScopeId[req.authorization.scopeId];
      var binding := ResolveBinding(bindings, scope.scopeId, req.eligible);
      if binding.Some? {
        ResolvesExactlyTheOnlyCandidate(bindings, scope.scopeId, req.eligible, binding.value);
        var governed := GovernanceRequest(scope, binding.value.provider.Name(), req.authorization.action, false);
        SealSucceeds(
          scope, Authorize(registry, roles, dir, req.authorization), Evaluate(policies, governed), binding.value);
      }
    }
  }

  lemma SealSucceeds(
    scope: ResourceScope, authorization: AuthorizationDecision, governance: GovernanceDecision, binding: CloudBinding)
    requires scope.IsCompleteAndActive() && scope.IsWellFormed() && authorization.allowed
    requires IsActiveFor(binding, scope.scopeId) && binding.IsWellFormed()
    ensures governance.allowed || governance.approvalRequired <==> Seal(scope, authorization, governance, binding).Ok?
  {
    assert |scope.CanonicalPath()| >= 1;
  }

  lemma SealedEvidence(
    registry: Registry, roles: RoleBindings, dir: Directory, bindings: CloudBindings, policies: seq<Policy>,
    req: PreflightRequest, context: SealedContext)
    returns (governed: GovernanceRequest)
    requires Preflight(registry, roles, dir, bindings, policies, req).Ok?
    requires ContextOf(Preflight(registry, roles, dir, bindings, policies, req).value) == Some(context)
    ensures ResolveActive(registry, req.authorization.scopeId) == Some(governed.scope)
    ensures Authorize(registry, roles, dir, req.authorization).allowed
    ensures context.contents.grantIds == Authorize(registry, roles, dir, req.authorization).matchedBindingIds
    ensures context.contents.guardrailIds == Evaluate(policies, governed).matchedPolicyTargets
  {
    var scope := ResolveActive(registry, req.authorization.scopeId).value;
    var binding := ResolveBinding(bindings, scope.scopeId, req.eligible).value;
    governed := GovernanceRequest(scope, binding.provider.Name(), req.authorization.action, false);
  }

  /** A sealed context records the evidence: the bindings that granted the request and the policies that applied. */
  lemma ContextRecordsTheDecisions(
    registry: Registry, roles: RoleBindings, dir: Directory, bindings: CloudBindings, policies: seq<Policy>,
    req: PreflightRequest, context: SealedContext, id: string)
    requires RegistriesOk(registry, bindings)
    requires Preflight(registry, roles, dir, bindings, policies, req).Ok?
    requires ContextOf(Preflight(registry, roles, dir, bindings, policies, req).value) == Some(context)
    ensures req.authorization.scopeId in registry.byScopeId
    ensures var scope := registry.byScopeId[req.authorization.scopeId];
            && (id in context.contents.grantIds <==>
                  exists key :: GrantedUnder(key, id, roles, req.authorization, scope, dir))
            && (id in context.contents.guardrailIds <==>
                  exists p :: p in policies && Applies(p, scope) && TargetLabel(p) == id)
  {
    var governed := SealedEvidence(registry, roles, dir, bindings, policies, req, context);
    MatchedIdsMeaning(registry, roles, dir, req.authorization, id);
    MatchedTargetsMeaning(policies, governed, id);
  }

  // ---------- The gate on the registries' current records ----------

  lemma {:induction false} LastByIdMeaning(bindings: seq<CloudBinding>, id: string)
    ensures LastById(bindings, id).Some? ==>
              LastById(bindings, id).value in bindings && LastById(bindings, id).value.bindingId == id
    ensures LastById(bindings, id).None? ==> forall b :: b in bindings ==> b.bindingId != id
  {
    if bindings != [] {
      LastByIdMeaning(bindings[..|bindings| - 1], id);
      assert bindings == bindings[..|bindings| - 1] + [bindings[|bindings| - 1]];
    }
  }

  function ActiveAmong(bindings: seq<CloudBinding>, scopeId: string): seq<CloudBinding> {
    Select(bindings, set b | b in bindings && IsActiveFor(b, scopeId))
  }

  lemma ActiveAmongLonger(bindings: seq<CloudBinding>, scopeId: string)
    requires bindings != []
    ensures var init, last := bindings[..|bindings| - 1], bindings[|bindings| - 1];
            ActiveAmong(bindings, scopeId)
            == ActiveAmong(init, scopeId) + (if IsActiveFor(last, scopeId) then [last] else [])
  {
    var init, last := bindings[..|bindings| - 1], bindings[|bindings| - 1];
    assert bindings == init + [last];
    SelectIgnoresOutsiders(
      init, set b | b in bindings && IsActiveFor(b, scopeId), set b | b in init && IsActiveFor(b, scopeId));
  }

  lemma LastByIdLonger(bindings: seq<CloudBinding>, b: CloudBinding, id: string)
    ensures LastById(bindings + [b], id) == if b.bindingId == id then Some(b) else LastById(bindings, id)
  {
    assert (bindings + [b])[..|bindings|] == bindings;
  }

  /** The version compared is the one of the last active record of the scope with that id. */
  lemma {:induction false} VersionsOfActive(bindings: seq<CloudBinding>, scopeId: string, id: string)
    ensures var active := ActiveAmong(bindings, scopeId);
            && (id in CurrentVersions(bindings, scopeId) <==> LastById(active, id).Some?)
            && (id in CurrentVersions(bindings, scopeId) ==>
                  CurrentVersions(bindings, scopeId)[id] == LastById(active, id).value.version)
  {
    if bindings != [] {
      var init, last := bindings[..|bindings| - 1], bindings[|bindings| - 1];
      VersionsOfActive(init, scopeId, id);
      ActiveAmongLonger(bindings, scopeId);
      if IsActiveFor(last, scopeId) {
        LastByIdLonger(ActiveAmong(init, scopeId), last, id);
      } else {
        assert ActiveAmong(bindings, scopeId) == ActiveAmong(init, scopeId);
      }
    }
  }

  /** Among the registry's active records an id names one record, so lookup and version check agree on it. */
  lemma ActiveRecordById(bindings: CloudBindings, scopeId: string, id: string)
    requires KeyedById(bindings)
    ensures var active := ActiveBindings(bindings, scopeId);
            && (LastById(active, id).Some? <==> id in bindings.at && IsActiveFor(bindings.at[id], scopeId))
            && (LastById(active, id).Some? ==> LastById(active, id) == Some(bindings.at[id]))
            && (id in CurrentVersions(active, scopeId) <==> LastById(active, id).Some?)
            && (id in CurrentVersions(active, scopeId) ==>
                  CurrentVersions(active, scopeId)[id] == bindings.at[id].version)
  {
    var active := ActiveBindings(bindings, scopeId);
    ActiveBindingsMeaning(bindings, scopeId);
    LastByIdMeaning(active, id);
    VersionsOfActive(active, scopeId, id);
    SelectAll(active, set b | b in active && IsActiveFor(b, scopeId));
    if id in bindings.at && IsActiveFor(bindings.at[id], scopeId) {
      assert bindings.at[id] in active;
    }
  }

  /** No applicable policy denies provisioning or restricts the provider away. */
  ghost predicate GovernanceStillAllows(
    policies: seq<Policy>, registry: Registry, scopeId: string, provider: CloudProvider)
  {
    && scopeId in registry.byScopeId
    && forall p :: p in policies && Applies(p, registry.byScopeId[scopeId]) ==>
         RequestProvision !in p.deniedActions && (|p.allowedProviders| > 0 ==> provider.Name() in p.allowedProviders)
  }

  lemma GovernanceStillAllowsMeaning(
    policies: seq<Policy>, registry: Registry, scopeId: string, provider: CloudProvider)
    requires scopeId in registry.byScopeId
    ensures GovernanceStillAllows(policies, registry, scopeId, provider) <==>
            Evaluate(policies, GovernanceRequest(
              registry.byScopeId[scopeId], provider.Name(), RequestProvision, true)).allowed
  {
    var req := GovernanceRequest(registry.byScopeId[scopeId], provider.Name(), RequestProvision, true);
    DecisionMeaning(policies, req);
    if NobodyObjects(policies, req) {
      assert forall p :: p in policies && Applies(p, req.scope) ==> Permits(p, req);
    }
  }

  /** The receipt bears both digests of the plan. */
  predicate BearsDigests(receipt: Receipt, plan: SealedPlan) {
    (receipt.planDigest, receipt.approvalDigest) == (plan.planDigest, plan.approvalDigest)
  }

  /**
   * Handed the registries' current records, the gate calls the executor exactly when the receipt matches,
   * the sealed context still describes those records, and governance allows the sealed binding's provider.
   */
  lemma GatePassesIff(
    plan: SealedPlan, approval: Option<Receipt>, registry: Registry, bindings: CloudBindings,
    policies: seq<Policy>, now: int)
    requires RegistriesOk(registry, bindings) && plan.IsValid()
    ensures var scopeId := plan.context.contents.scopeId;
            Gate(plan, approval, ResolveActive(registry, scopeId), ActiveBindings(bindings, scopeId), policies, now).Ok?
            <==>
            && approval.Some? && BearsDigests(approval.value, plan)
            && exists provider ::
                 && Describes(plan.context, registry, bindings, scopeId, provider)
                 && GovernanceStillAllows(policies, registry, scopeId, provider)
  {
    var c := plan.context.contents;
    var scope := ResolveActive(registry, c.scopeId);
    var active := ActiveBindings(bindings, c.scopeId);
    var gate := Gate(plan, approval, scope, active, policies, now);
    var bv := c.bindingVersions[0];
    ActiveRecordById(bindings, c.scopeId, bv.bindingId);
    if |c.bindingVersions| == 1 && scope.Some? {
      if bv.bindingId in bindings.at {
        GovernanceStillAllowsMeaning(policies, registry, c.scopeId, bindings.at[bv.bindingId].provider);
      }
      assert forall b :: b in c.bindingVersions <==> b == bv;
      if gate.Ok? {
        var provider := bindings.at[bv.bindingId].provider;
        assert bv in c.bindingVersions;
        assert Describes(plan.context, registry, bindings, c.scopeId, provider);
        assert GovernanceStillAllows(policies, registry, c.scopeId, provider);
      }
    }
  }

  /** A plan sealed from a preflight describes the records of that moment, and governance allows it with approval. */
  lemma PreflightDescribes(
    registry: Registry, roles: RoleBindings, dir: Directory, bindings: CloudBindings, policies: seq<Policy>,
    req: PreflightRequest, context: SealedContext)
    requires RegistriesOk(registry, bindings) && req.authorization.action == RequestProvision
    requires Preflight(registry, roles, dir, bindings, policies, req).Ok?
    requires ContextOf(Preflight(registry, roles, dir, bindings, policies, req).value) == Some(context)
    ensures exists provider ::
              && provider in req.eligible
              && Describes(context, registry, bindings, req.authorization.scopeId, provider)
              && GovernanceStillAllows(policies, registry, req.authorization.scopeId, provider)
  {
    PreflightNeverRaises(registry, roles, dir, bindings, policies, req);
    var scopeId := req.authorization.scopeId;
    var binding := ResolveBinding(bindings, scopeId, req.eligible).value;
    ResolvesExactlyTheOnlyCandidate(bindings, scopeId, req.eligible, binding);
    GovernanceStillAllowsMeaning(policies, registry, scopeId, binding.provider);
    assert context.contents.IsSealable();
    assert Describes(context, registry, bindings, scopeId, binding.provider);
    assert GovernanceStillAllows(policies, registry, scopeId, binding.provider);
  }

  // ---------- What the gate needs of a caller's own list of bindings ----------

  /** The record whose version the freshness check compares: the last active one of the scope with the id. */
  function CheckedRecord(bindings: seq<CloudBinding>, scopeId: string, id: string): Option<CloudBinding> {
    LastById(ActiveAmong(bindings, scopeId), id)
  }

  lemma {:induction false} LastRecordIsChecked(bindings: seq<CloudBinding>, scopeId: string, id: string)
    requires LastById(bindings, id).Some? && IsActiveFor(LastById(bindings, id).value, scopeId)
    ensures CheckedRecord(bindings, scopeId, id) == LastById(bindings, id)
  {
    var init, last := bindings[..|bindings| - 1], bindings[|bindings| - 1];
    ActiveAmongLonger(bindings, scopeId);
    if last.bindingId != id {
      LastRecordIsChecked(init, scopeId, id);
    }
    if IsActiveFor(last, scopeId) {
      LastByIdLonger(ActiveAmong(init, scopeId), last, id);
    } else {
      assert ActiveAmong(bindings, scopeId) == ActiveAmong(init, scopeId);
    }
  }

  /**
   * The gate judges the provider of the very record it found fresh exactly when the last record bearing the
   * sealed id is active for the scope. Distinct ids are enough for that.
   */
  lemma GateJudgesTheCheckedRecordIff(
    plan: SealedPlan, approval: Option<Receipt>, scope: Option<ResourceScope>, bindings: seq<CloudBinding>,
    policies: seq<Policy>, now: int)
    requires Gate(plan, approval, scope, bindings, policies, now).Ok?
    ensures scope.Some? && |plan.context.contents.bindingVersions| == 1
    ensures var bv := plan.context.contents.bindingVersions[0];
            var selected := LastById(bindings, bv.bindingId);
            var checked := CheckedRecord(bindings, scope.value.scopeId, bv.bindingId);
            && selected.Some? && checked.Some? && checked.value.version == bv.version
            && (selected == checked <==> IsActiveFor(selected.value, scope.value.scopeId))
            && (DistinctBindingIds(bindings) ==> selected == checked)
  {
    var bv := plan.context.contents.bindingVersions[0];
    assert bv in plan.context.contents.bindingVersions;
    var scopeId := scope.value.scopeId;
    var keep := set b | b in bindings && IsActiveFor(b, scopeId);
    var active := ActiveAmong(bindings, scopeId);
    VersionsOfActive(bindings, scopeId, bv.bindingId);
    LastByIdMeaning(active, bv.bindingId);
    LastByIdMeaning(bindings, bv.bindingId);
    SelectMeaning(bindings, keep);
    var selected, checked := LastById(bindings, bv.bindingId).value, LastById(active, bv.bindingId).value;
    if IsActiveFor(selected, scopeId) {
      LastRecordIsChecked(bindings, scopeId, bv.bindingId);
    }
    if DistinctBindingIds(bindings) {
      var i :| 0 <= i < |bindings| && bindings[i] == checked;
      var j :| 0 <= j < |bindings| && bindings[j] == selected;
      assert i == j;
    }
  }

  ghost predicate DistinctBindingIds(bindings: seq<CloudBinding>) {
    forall i, j :: 0 <= i < j < |bindings| ==> bindings[i].bindingId != bindings[j].bindingId
  }

  predicate DescribesScope(c: Contents, scope: ResourceScope) {
    && scope.IsCompleteAndActive()
    && c.scopeId == scope.scopeId && c.canonicalPath == scope.CanonicalPath() && c.scopeVersion == scope.version
  }

  /** Given a live and, after it, a dead record with one id, the gate judges the provider of the dead one. */
  lemma RepeatedIdMisleadsTheGate(
    plan: SealedPlan, approval: Receipt, scope: ResourceScope, live: CloudBinding, dead: CloudBinding,
    policies: seq<Policy>, now: int)
    requires approval.Matches(plan) && DescribesScope(plan.context.contents, scope)
    requires plan.context.contents.bindingVersions == [BindingVersion(live.bindingId, live.version)]
    requires IsActiveFor(live, scope.scopeId) && !IsActiveFor(dead, scope.scopeId) && dead.bindingId == live.bindingId
    ensures CheckedRecord([live, dead], scope.scopeId, live.bindingId) == Some(live)
    ensures Gate(plan, Some(approval), Some(scope), [live, dead], policies, now).Ok? <==>
            Evaluate(policies, GovernanceRequest(scope, dead.provider.Name(), RequestProvision, true)).allowed
  {
    var bindings := [live, dead];
    assert bindings[..1] == [live] && [live][..0] == [];
    assert CurrentVersions([live], scope.scopeId) == map[live.bindingId := live.version];
    ActiveAmongLonger([live], scope.scopeId);
    ActiveAmongLonger(bindings, scope.scopeId);
    assert ActiveAmong(bindings, scope.scopeId) == [live];
  }

  /** A policy that names one provider admits the bindings of that provider and no others. */
  lemma OnlyTheNamedProvider(scope: ResourceScope, name: string, provider: CloudProvider)
    ensures Evaluate(
              [Policy(OnScope, scope.scopeId, {name}, {}, false)],
              GovernanceRequest(scope, provider.Name(), RequestProvision, true)).allowed <==>
            match provider case Aws => name == "aws" case Gcp => name == "gcp" case Azure => name == "azure"
  {
    var policy := Policy(OnScope, scope.scopeId, {name}, {}, false);
    var req := GovernanceRequest(scope, provider.Name(), RequestProvision, true);
    DecisionMeaning([policy], req);
    assert policy in [policy];
    assert NobodyObjects([policy], req) <==> Permits(policy, req);
  }

  /** So an aws plan passes under a policy that allows only gcp, if a suspended gcp record repeats the id. */
  lemma WrongProviderExample() returns (scope: ResourceScope, live: CloudBinding, dead: CloudBinding, plan: SealedPlan)
    ensures live.provider == Aws && IsActiveFor(live, scope.scopeId) && plan.IsValid()
    ensures CheckedRecord([live, dead], scope.scopeId, live.bindingId) == Some(live)
    ensures var policies := [Policy(OnScope, scope.scopeId, {"gcp"}, {}, false)];
            var approval := Receipt(plan.planDigest, plan.approvalDigest, Principal(User, "u"));
            && Gate(plan, Some(approval), Some(scope), [live, dead], policies, 0).Ok?
            && !Evaluate(policies, GovernanceRequest(scope, live.provider.Name(), RequestProvision, true)).allowed
  {
    scope := ResourceScope(
      "scope_aa", Organization("org_a", "o", Active), BusinessUnit("bu_a", "org_a", "b", Active),
      Team("team_a", "bu_a", "t", Active), Project("project_a", "team_a", "p", Active),
      Environment("env_a", "project_a", "e", Active), Active, 1);
    live := CloudBinding("binding_aa", "scope_aa", Aws, AwsAccount, "1", "r", None, Active, 1);
    dead := CloudBinding("binding_aa", "scope_aa", Gcp, GcpProject, "2", "r", None, Suspended, 1);
    plan := SealPlan(SealedFor(scope, live), PlanPolicy("p", 1), map["k" := "v"]);
    var policies := [Policy(OnScope, scope.scopeId, {"gcp"}, {}, false)];
    var approval := Receipt(plan.planDigest, plan.approvalDigest, Principal(User, "u"));
    RepeatedIdMisleadsTheGate(plan, approval, scope, live, dead, policies, 0);
    assert "gcp"[0] != "aws"[0];
    OnlyTheNamedProvider(scope, "gcp", Gcp);
    OnlyTheNamedProvider(scope, "gcp", Aws);
  }

  /** A context sealed for an active scope and its active binding. */
  function SealedFor(scope: ResourceScope, binding: CloudBinding): (context: SealedContext)
    requires scope.IsCompleteAndActive() && scope.IsWellFormed()
    requires IsActiveFor(binding, scope.scopeId) && binding.IsWellFormed()
    ensures context.IsValid() && DescribesScope(context.contents, scope)
    ensures context.contents.bindingVersions == [BindingVersion(binding.bindingId, binding.version)]
  {
    assert |scope.CanonicalPath()| >= 1;
    Seal(scope, AuthorizationDecision(true, []), GovernanceDecision(true, false, []), binding).value
  }
}
