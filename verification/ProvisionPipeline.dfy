/**
 * The provision authorization pipeline as a transition system: registry, role, directory and policy changes
 * interleave freely with preflight, review and execution. The theorems range over every run.
 */
module ProvisionPipeline {
  import opened Wrappers
  import opened OrderedDicts
  import opened ResourceScopes
  import opened ScopeAccess
  import opened Governance
  import opened ProviderBindings
  import opened ContextDigests
  import opened ProvisionPlans

  /** A review thread, opened with a sealed plan; its requester is the preflight principal. */
  datatype Review = Review(plan: SealedPlan, requester: Principal)

  datatype World = World(
    registry: Registry,
    bindings: CloudBindings,
    roles: RoleBindings,
    directory: Directory,
    policies: seq<Policy>,
    reviews: seq<Review>,
    receipts: map<Digest, Receipt>,
    executed: seq<SealedPlan>)

  datatype Event =
    | RegisterScope(scope: ResourceScope)
    | RegisterBinding(binding: CloudBinding)
    | SetBindingState(bindingId: string, state: LifecycleState)
    | ReplaceRole(role: RoleBinding)
    | ReplaceDirectory(directory: Directory)
    | ReplacePolicies(policies: seq<Policy>)
    | RunPreflight(
        principal: Principal, scopeId: string, eligible: set<CloudProvider>, policy: PlanPolicy,
        inputs: map<string, string>)
    | SubmitReview(thread: nat, reviewer: Option<Principal>, response: ReviewResponse)
    | DropReceipt(planDigest: Digest)
    | Execute(plan: SealedPlan, now: int)

  /** Records reach the registries validated, and a plan object cannot be built with digests that do not fit. */
  ghost predicate Admissible(ev: Event) {
    match ev
    case RegisterScope(scope) => scope.IsWellFormed()
    case RegisterBinding(binding) => binding.IsWellFormed()
    case Execute(plan, _) => plan.IsValid()
    case _ => true
  }

  function RequestOf(principal: Principal, scopeId: string, eligible: set<CloudProvider>): PreflightRequest {
    PreflightRequest(AuthorizationRequest(principal, RequestProvision, scopeId), eligible)
  }

  /** The plan a preflight seals, if it seals one. */
  function SealedBy(w: World, ev: Event): Option<SealedPlan>
    requires ev.RunPreflight?
  {
    match Preflight(
            w.registry, w.roles, w.directory, w.bindings, w.policies,
            RequestOf(ev.principal, ev.scopeId, ev.eligible))
    case Err(_) => None
    case Ok(result) =>
      match ContextOf(result)
      case None => None
      case Some(context) => Some(SealPlan(context, ev.policy, ev.inputs))
  }

  function OutcomeOf(w: World, ev: Event): Result<ReviewOutcome, ReviewError>
    requires ev.SubmitReview? && ev.thread < |w.reviews|
  {
    var review := w.reviews[ev.thread];
    ReviewPlan(w.registry, w.roles, w.directory, review.plan, review.requester, ev.reviewer, ev.response)
  }

  /** The gate is handed the receipt stored for the plan and the registries' current records. */
  function GateOf(w: World, ev: Event): Result<Evidence, GateError>
    requires ev.Execute?
  {
    var scopeId := ev.plan.context.contents.scopeId;
    var approval := if ev.plan.planDigest in w.receipts then Some(w.receipts[ev.plan.planDigest]) else None;
    Gate(
      ev.plan, approval, ResolveActive(w.registry, scopeId), ActiveBindings(w.bindings, scopeId), w.policies, ev.now)
  }

  function Next(w: World, ev: Event): World {
    match ev
    case RegisterScope(scope) =>
      (match Register(w.registry, scope) case Ok(registry) => w.(registry := registry) case Err(_) => w)
    case RegisterBinding(binding) => w.(bindings := Put(w.bindings, binding.bindingId, binding))
    case SetBindingState(id, state) =>
      (match SetState(w.bindings, id, state) case Some(bindings) => w.(bindings := bindings) case None => w)
    case ReplaceRole(role) => w.(roles := Put(w.roles, role.bindingId, role))
    case ReplaceDirectory(directory) => w.(directory := directory)
    case ReplacePolicies(policies) => w.(policies := policies)
    case RunPreflight(principal, _, _, _, _) =>
      (match SealedBy(w, ev)
       case Some(plan) => w.(reviews := w.reviews + [Review(plan, principal)])
       case None => w)
    case SubmitReview(thread, _, _) =>
      if thread >= |w.reviews| then w
      else
        (match OutcomeOf(w, ev)
         case Ok(Approved(receipt)) => w.(receipts := w.receipts[receipt.planDigest := receipt])
         case _ => w)
    case DropReceipt(planDigest) => w.(receipts := w.receipts - {planDigest})
    case Execute(plan, _) => if GateOf(w, ev).Ok? then w.(executed := w.executed + [plan]) else w
  }

  /** Nothing under review, approved or executed yet; any reviewed records may already be registered. */
  ghost predicate Initial(w: World) {
    RegistriesOk(w.registry, w.bindings) && w.reviews == [] && w.receipts == map[] && w.executed == []
  }

  ghost predicate Step(ws: seq<World>, events: seq<Event>, n: nat)
    requires n < |events| && |ws| == |events| + 1
  {
    Admissible(events[n]) && ws[n + 1] == Next(ws[n], events[n])
  }

  /** A run: the worlds passed through, and the events that lead from each to the next. */
  ghost predicate IsRun(ws: seq<World>, events: seq<Event>) {
    && |ws| == |events| + 1
    && Initial(ws[0])
    && forall n {:trigger Step(ws, events, n)} :: 0 <= n < |events| ==> Step(ws, events, n)
  }

  ghost predicate CallsExecutor(w: World, ev: Event) {
    ev.Execute? && GateOf(w, ev).Ok?
  }

  // ---------- What one step does ----------

  lemma StepKeepsRegistriesOk(w: World, ev: Event)
    requires RegistriesOk(w.registry, w.bindings) && Admissible(ev)
    ensures RegistriesOk(Next(w, ev).registry, Next(w, ev).bindings)
  {
    if ev.RegisterBinding? {
      assert KeyedById(Put(w.bindings, ev.binding.bindingId, ev.binding));
    }
  }

  ghost predicate Opens(w: World, ev: Event, review: Review) {
    ev.RunPreflight? && SealedBy(w, ev) == Some(review.plan) && review.requester == ev.principal
  }

  lemma StepOpensReview(ws: seq<World>, events: seq<Event>, n: nat, thread: nat)
    requires IsRun(ws, events) && n < |events| && thread < |ws[n + 1].reviews|
    ensures || (thread < |ws[n].reviews| && ws[n].reviews[thread] == ws[n + 1].reviews[thread])
            || Opens(ws[n], events[n], ws[n + 1].reviews[thread])
  {
    assert Step(ws, events, n);
  }

  ghost predicate Issues(w: World, ev: Event, receipt: Receipt) {
    ev.SubmitReview? && ev.thread < |w.reviews| && OutcomeOf(w, ev) == Ok(Approved(receipt))
  }

  lemma StepIssuesReceipts(w: World, ev: Event, digest: Digest)
    requires digest in Next(w, ev).receipts
    ensures || (digest in w.receipts && Next(w, ev).receipts[digest] == w.receipts[digest])
            || (Issues(w, ev, Next(w, ev).receipts[digest]) && Next(w, ev).receipts[digest].planDigest == digest)
  {
  }

  // ---------- Invariants of every run ----------

  lemma {:induction false} RegistriesStayOk(ws: seq<World>, events: seq<Event>, i: nat)
    requires IsRun(ws, events) && i <= |events|
    ensures RegistriesOk(ws[i].registry, ws[i].bindings)
  {
    if i > 0 {
      assert Step(ws, events, i - 1);
      RegistriesStayOk(ws, events, i - 1);
      StepKeepsRegistriesOk(ws[i - 1], events[i - 1]);
    }
  }

  /** Every review thread was opened by an earlier preflight, for the plan it sealed and by its principal. */
  lemma {:induction false} ReviewOrigin(ws: seq<World>, events: seq<Event>, i: nat, thread: nat) returns (j: nat)
    requires IsRun(ws, events) && i <= |events| && thread < |ws[i].reviews|
    ensures j < i && Opens(ws[j], events[j], ws[i].reviews[thread])
    decreases i
  {
    StepOpensReview(ws, events, i - 1, thread);
    if thread < |ws[i - 1].reviews| && ws[i - 1].reviews[thread] == ws[i].reviews[thread] {
      j := ReviewOrigin(ws, events, i - 1, thread);
    } else {
      j := i - 1;
    }
  }

  /** Every stored receipt was issued by an earlier review. */
  lemma {:induction false} ReceiptOrigin(ws: seq<World>, events: seq<Event>, i: nat, digest: Digest) returns (k: nat)
    requires IsRun(ws, events) && i <= |events| && digest in ws[i].receipts
    ensures k < i && Issues(ws[k], events[k], ws[i].receipts[digest])
    ensures ws[i].receipts[digest].planDigest == digest
    decreases i
  {
    assert Step(ws, events, i - 1);
    StepIssuesReceipts(ws[i - 1], events[i - 1], digest);
    if digest in ws[i - 1].receipts && ws[i - 1].receipts[digest] == ws[i].receipts[digest] {
      k := ReceiptOrigin(ws, events, i - 1, digest);
    } else {
      k := i - 1;
    }
  }

  /** What a sealing preflight guarantees about its plan, in the world of the preflight. */
  ghost predicate SealedWell(w: World, ev: Event, plan: SealedPlan) {
    && ev.RunPreflight?
    && plan.IsValid()
    && plan.context.contents.scopeId == ev.scopeId
    && |plan.context.contents.bindingVersions| == 1
    && plan.policy == ev.policy && plan.inputs == ev.inputs
    && SealedFromEligible(w, plan, ev.eligible)
    && Holds(w.registry, w.roles, w.directory, AuthorizationRequest(ev.principal, RequestProvision, ev.scopeId))
    && CurrentlyJustified(w, plan)
  }

  /** The sealed context describes the records, with a binding of one of these providers. */
  ghost predicate SealedFromEligible(w: World, plan: SealedPlan, eligible: set<CloudProvider>) {
    exists provider ::
      provider in eligible
      && Describes(plan.context, w.registry, w.bindings, plan.context.contents.scopeId, provider)
  }

  /** What the executor can rely on in the state of the call. */
  ghost predicate CurrentlyJustified(w: World, plan: SealedPlan) {
    exists provider ::
      && Describes(plan.context, w.registry, w.bindings, plan.context.contents.scopeId, provider)
      && GovernanceStillAllows(w.policies, w.registry, plan.context.contents.scopeId, provider)
  }

  lemma SealingIsSound(w: World, ev: Event)
    requires RegistriesOk(w.registry, w.bindings) && ev.RunPreflight? && SealedBy(w, ev).Some?
    ensures SealedWell(w, ev, SealedBy(w, ev).value)
  {
    var req := RequestOf(ev.principal, ev.scopeId, ev.eligible);
    PreflightDescribes(
      w.registry, w.roles, w.directory, w.bindings, w.policies, req, SealedBy(w, ev).value.context);
    PreflightNeverRaises(w.registry, w.roles, w.directory, w.bindings, w.policies, req);
  }

  /** What an approving review guarantees, in the world of the review. */
  ghost predicate ApprovedWell(w: World, ev: Event, review: Review, receipt: Receipt) {
    && ev.SubmitReview?
    && ev.reviewer == Some(receipt.approvedBy)
    && receipt.approvedBy != review.requester
    && ev.response == ReviewResponse("approve", Some(review.plan.planDigest), Some(review.plan.approvalDigest))
    && BearsDigests(receipt, review.plan)
    && Holds(w.registry, w.roles, w.directory,
             AuthorizationRequest(receipt.approvedBy, ApproveProvision, review.plan.context.contents.scopeId))
  }

  /** A review issues a receipt exactly to another principal who presents both digests and may approve. */
  lemma ReceiptIssuedIff(w: World, ev: Event, receipt: Receipt)
    requires ev.SubmitReview? && ev.thread < |w.reviews|
    ensures Issues(w, ev, receipt) <==> ApprovedWell(w, ev, w.reviews[ev.thread], receipt)
  {
    if ev.reviewer.Some? {
      AuthorizeIffHolds(
        w.registry, w.roles, w.directory,
        AuthorizationRequest(
          ev.reviewer.value, ApproveProvision, w.reviews[ev.thread].plan.context.contents.scopeId));
    }
  }

  /** The evidence of a call names the plan, its approval, its context, its binding and its approver. */
  ghost predicate Witnesses(evidence: Evidence, plan: SealedPlan, receipt: Receipt) {
    && evidence.planDigest == plan.planDigest == receipt.planDigest
    && evidence.approvalDigest == plan.approvalDigest == receipt.approvalDigest
    && OfContext(Preimage(plan.context.contents)) == evidence.contextDigest
    && |plan.context.contents.bindingVersions| == 1
    && evidence.bindingIds == [plan.context.contents.bindingVersions[0].bindingId]
    && evidence.approvedBy == receipt.approvedBy
  }

  lemma PassingIsSound(w: World, ev: Event)
    requires RegistriesOk(w.registry, w.bindings) && Admissible(ev) && ev.Execute?
    ensures CallsExecutor(w, ev) <==>
            && ev.plan.planDigest in w.receipts && BearsDigests(w.receipts[ev.plan.planDigest], ev.plan)
            && CurrentlyJustified(w, ev.plan)
    ensures CallsExecutor(w, ev) ==>
              Witnesses(GateOf(w, ev).value, ev.plan, w.receipts[ev.plan.planDigest])
              && GateOf(w, ev).value.recordedAt == ev.now
  {
    var approval := if ev.plan.planDigest in w.receipts then Some(w.receipts[ev.plan.planDigest]) else None;
    GatePassesIff(ev.plan, approval, w.registry, w.bindings, w.policies, ev.now);
  }

  /** Equal plan digests mean equal plans, once no id contains the separator. */
  lemma SameDigestSamePlan(p: SealedPlan, q: SealedPlan)
    requires p.IsValid() && q.IsValid() && p.planDigest == q.planDigest
    requires |p.context.contents.bindingVersions| == 1 && |q.context.contents.bindingVersions| == 1
    requires SeparatorFree(p.context.contents) && SeparatorFree(q.context.contents)
    ensures p == q
  {
    SingleBindingContentsAreDigestedApart(p.context.contents, q.context.contents);
  }

  /**
   * What equal plan digests say: the same policy and inputs; the same scope, path, versions and binding unless a
   * routing id contains the separator; the same plan unless some id does.
   */
  ghost predicate StandsFor(p: SealedPlan, q: SealedPlan) {
    && p.policy == q.policy && p.inputs == q.inputs
    && (RoutesClearly(p.context.contents) && RoutesClearly(q.context.contents) ==>
          SameRouting(p.context.contents, q.context.contents))
    && (SeparatorFree(p.context.contents) && SeparatorFree(q.context.contents) ==> p == q)
  }

  /** Either digest of a plan determines the other and what the plan stands for. */
  lemma SameDigestStandsFor(p: SealedPlan, q: SealedPlan)
    requires p.IsValid() && q.IsValid() && (p.planDigest == q.planDigest || p.approvalDigest == q.approvalDigest)
    requires |p.context.contents.bindingVersions| == 1 && |q.context.contents.bindingVersions| == 1
    ensures StandsFor(p, q) && p.planDigest == q.planDigest && p.approvalDigest == q.approvalDigest
  {
    var c, d := p.context.contents, q.context.contents;
    assert Preimage(c) == Preimage(d);
    if RoutesClearly(c) && RoutesClearly(d) {
      RoutingIsDigestedApart(c, d);
    }
    if SeparatorFree(c) && SeparatorFree(d) {
      SameDigestSamePlan(p, q);
    }
  }

  // ---------- Safety ----------

  /**
   * The executed plan of step i goes back to a review opened at step j and a receipt issued for it at step k: an
   * authorized requester sealed the plan; another principal, who was an approver at that moment, presented both
   * digests; in the state of the call the sealed context still describes the records and governance allows it; and
   * the executed plan stands for the reviewed one.
   */
  ghost predicate SafeChain(
    ws: seq<World>, events: seq<Event>, j: nat, k: nat, i: nat, review: Review, receipt: Receipt)
  {
    && j < k < i < |events| && |ws| == |events| + 1
    && Opens(ws[j], events[j], review) && SealedWell(ws[j], events[j], review.plan)
    && Issues(ws[k], events[k], receipt) && ApprovedWell(ws[k], events[k], review, receipt)
    && CallsExecutor(ws[i], events[i]) && CurrentlyJustified(ws[i], events[i].plan)
    && BearsDigests(receipt, events[i].plan) && Witnesses(GateOf(ws[i], events[i]).value, events[i].plan, receipt)
    && StandsFor(events[i].plan, review.plan)
  }

  ghost predicate EndsSafeChain(ws: seq<World>, events: seq<Event>, i: nat) {
    exists j, k, review, receipt :: SafeChain(ws, events, j, k, i, review, receipt)
  }

  lemma CallHasSafeChain(ws: seq<World>, events: seq<Event>, i: nat)
    returns (j: nat, k: nat, review: Review, receipt: Receipt)
    requires IsRun(ws, events) && i < |events| && CallsExecutor(ws[i], events[i])
    ensures SafeChain(ws, events, j, k, i, review, receipt)
  {
    var plan := events[i].plan;
    assert Step(ws, events, i);
    RegistriesStayOk(ws, events, i);
    PassingIsSound(ws[i], events[i]);
    receipt := ws[i].receipts[plan.planDigest];
    k := ReceiptOrigin(ws, events, i, plan.planDigest);
    review := ws[k].reviews[events[k].thread];
    ReceiptIssuedIff(ws[k], events[k], receipt);
    j := ReviewOrigin(ws, events, k, events[k].thread);
    RegistriesStayOk(ws, events, j);
    SealingIsSound(ws[j], events[j]);
    SameDigestStandsFor(plan, review.plan);
  }

  /** Over every run, whenever a step adds to what was executed, it adds its own plan, at the end of a safe chain. */
  lemma ExecutionIsSafe(ws: seq<World>, events: seq<Event>, i: nat)
    requires IsRun(ws, events) && i < |events| && ws[i + 1].executed != ws[i].executed
    ensures events[i].Execute? && ws[i + 1].executed == ws[i].executed + [events[i].plan]
    ensures EndsSafeChain(ws, events, i)
  {
    StepExecutesAt(ws, events, i);
    var j, k, review, receipt := CallHasSafeChain(ws, events, i);
  }

  lemma StepExecutesAt(ws: seq<World>, events: seq<Event>, n: nat)
    requires IsRun(ws, events) && n < |events|
    ensures ws[n + 1].executed ==
            if CallsExecutor(ws[n], events[n]) then ws[n].executed + [events[n].plan] else ws[n].executed
  {
    assert Step(ws, events, n);
  }

  /** Everything in the trace of executed plans was put there by the step that called the executor with it. */
  lemma {:induction false} ExecutedByItsCall(ws: seq<World>, events: seq<Event>, n: nat, m: nat) returns (i: nat)
    requires IsRun(ws, events) && n <= |events| && m < |ws[n].executed|
    ensures i < n && CallsExecutor(ws[i], events[i]) && events[i].plan == ws[n].executed[m]
    decreases n
  {
    StepExecutesAt(ws, events, n - 1);
    if m < |ws[n - 1].executed| {
      i := ExecutedByItsCall(ws, events, n - 1, m);
    } else {
      i := n - 1;
    }
  }

  /** Everything ever executed was executed at the end of a safe chain. */
  lemma EverythingExecutedWasSafe(ws: seq<World>, events: seq<Event>, n: nat, m: nat) returns (i: nat)
    requires IsRun(ws, events) && n <= |events| && m < |ws[n].executed|
    ensures i < n && events[i].Execute? && events[i].plan == ws[n].executed[m] && EndsSafeChain(ws, events, i)
  {
    i := ExecutedByItsCall(ws, events, n, m);
    var j, k, review, receipt := CallHasSafeChain(ws, events, i);
  }

  // ---------- No spurious denial ----------

  /** The step leaves the plan's scope and binding and the policies that apply to the scope as they are. */
  ghost predicate LeavesRecords(w: World, ev: Event, contents: Contents) {
    match ev
    case RegisterScope(scope) => scope.scopeId != contents.scopeId
    case RegisterBinding(binding) => binding.bindingId !in contents.BindingIds()
    case SetBindingState(id, _) => id !in contents.BindingIds()
    case ReplacePolicies(policies) =>
      contents.scopeId in w.registry.byScopeId
      && SamePoliciesFor(w.policies, policies, w.registry.byScopeId[contents.scopeId])
    case _ => true
  }

  ghost predicate SamePoliciesFor(ps: seq<Policy>, qs: seq<Policy>, scope: ResourceScope) {
    forall p :: Applies(p, scope) ==> (p in ps <==> p in qs)
  }

  /** What the gate consults for the contents is the same in both worlds. */
  ghost predicate SameRecords(a: World, b: World, contents: Contents) {
    && contents.scopeId in a.registry.byScopeId && contents.scopeId in b.registry.byScopeId
    && a.registry.byScopeId[contents.scopeId] == b.registry.byScopeId[contents.scopeId]
    && (forall id :: id in contents.BindingIds() ==>
          (id in a.bindings.at <==> id in b.bindings.at)
          && (id in a.bindings.at ==> a.bindings.at[id] == b.bindings.at[id]))
    && SamePoliciesFor(a.policies, b.policies, a.registry.byScopeId[contents.scopeId])
  }

  lemma RecordsLeft(w: World, ev: Event, contents: Contents)
    requires contents.scopeId in w.registry.byScopeId && LeavesRecords(w, ev, contents)
    ensures SameRecords(w, Next(w, ev), contents)
  {
  }

  lemma {:induction false} RecordsUnchanged(ws: seq<World>, events: seq<Event>, j: nat, i: nat, contents: Contents)
    requires IsRun(ws, events) && j <= i <= |events| && contents.scopeId in ws[j].registry.byScopeId
    requires forall n :: j <= n < i ==> LeavesRecords(ws[n], events[n], contents)
    ensures SameRecords(ws[j], ws[i], contents)
    decreases i
  {
    if j < i {
      assert Step(ws, events, i - 1);
      RecordsUnchanged(ws, events, j, i - 1, contents);
      RecordsLeft(ws[i - 1], events[i - 1], contents);
    }
  }

  lemma {:induction false} ReceiptStays(ws: seq<World>, events: seq<Event>, k: nat, i: nat, planDigest: Digest)
    requires IsRun(ws, events) && k <= i <= |events| && planDigest in ws[k].receipts
    requires forall n :: k <= n < i ==> events[n] != DropReceipt(planDigest)
    ensures planDigest in ws[i].receipts
    decreases i
  {
    if k < i {
      ReceiptStays(ws, events, k, i - 1, planDigest);
      assert Step(ws, events, i - 1);
    }
  }

  /** Whatever receipt is stored for a plan's digest fits the plan, whichever review issued it. */
  lemma StoredReceiptFits(ws: seq<World>, events: seq<Event>, i: nat, plan: SealedPlan)
    requires IsRun(ws, events) && i <= |events| && plan.IsValid()
    requires plan.planDigest in ws[i].receipts
    ensures BearsDigests(ws[i].receipts[plan.planDigest], plan)
  {
    var k := ReceiptOrigin(ws, events, i, plan.planDigest);
    ReceiptIssuedIff(ws[k], events[k], ws[i].receipts[plan.planDigest]);
    var j := ReviewOrigin(ws, events, k, events[k].thread);
    RegistriesStayOk(ws, events, j);
    SealingIsSound(ws[j], events[j]);
  }

  lemma SameRecordsSameJustification(a: World, b: World, plan: SealedPlan)
    requires SameRecords(a, b, plan.context.contents) && CurrentlyJustified(a, plan)
    ensures CurrentlyJustified(b, plan)
  {
    var c := plan.context.contents;
    var provider :|
      && Describes(plan.context, a.registry, a.bindings, c.scopeId, provider)
      && GovernanceStillAllows(a.policies, a.registry, c.scopeId, provider);
    assert c.bindingVersions[0].bindingId == c.BindingIds()[0];
    assert Describes(plan.context, b.registry, b.bindings, c.scopeId, provider);
    assert GovernanceStillAllows(b.policies, b.registry, c.scopeId, provider);
  }

  /**
   * A plan that preflight sealed at step j is executed at step i exactly if a receipt is stored for it, as soon as
   * the records the gate consults for the plan are what they were at step j, whatever happened in between.
   */
  lemma ExecutedIffReceipt(ws: seq<World>, events: seq<Event>, j: nat, i: nat, review: Review)
    requires IsRun(ws, events) && j < i < |events|
    requires ws[j + 1].reviews == ws[j].reviews + [review]
    requires SameRecords(ws[j], ws[i], review.plan.context.contents)
    requires events[i].Execute? && events[i].plan == review.plan
    ensures ws[i + 1].executed ==
            if review.plan.planDigest in ws[i].receipts then ws[i].executed + [review.plan] else ws[i].executed
  {
    StepOpensReview(ws, events, j, |ws[j].reviews|);
    RegistriesStayOk(ws, events, j);
    SealingIsSound(ws[j], events[j]);
    SameRecordsSameJustification(ws[j], ws[i], review.plan);
    if review.plan.planDigest in ws[i].receipts {
      StoredReceiptFits(ws, events, i, review.plan);
    }
    RegistriesStayOk(ws, events, i);
    assert Step(ws, events, i);
    PassingIsSound(ws[i], events[i]);
    StepExecutesAt(ws, events, i);
  }

  /** An approving review of the plan stores a receipt for it. */
  lemma ApprovalIsStored(ws: seq<World>, events: seq<Event>, k: nat, receipt: Receipt)
    requires IsRun(ws, events) && k < |events| && Issues(ws[k], events[k], receipt)
    ensures ws[k + 1].receipts == ws[k].receipts[receipt.planDigest := receipt]
  {
    assert Step(ws, events, k);
  }

  /**
   * A plan that preflight sealed at step j, and for which a receipt is stored at a later time k, is executed at
   * step i, whatever happens in between: unless the plan's scope or binding or a policy that applies to the scope
   * changes, or the receipt is dropped. Other records, roles and memberships may change.
   */
  lemma NoSpuriousDenial(ws: seq<World>, events: seq<Event>, j: nat, k: nat, i: nat, review: Review)
    requires IsRun(ws, events) && j < k <= i < |events|
    requires ws[j + 1].reviews == ws[j].reviews + [review]
    requires review.plan.planDigest in ws[k].receipts
    requires forall n :: j <= n < i ==> LeavesRecords(ws[n], events[n], review.plan.context.contents)
    requires forall n :: k <= n < i ==> events[n] != DropReceipt(review.plan.planDigest)
    requires events[i].Execute? && events[i].plan == review.plan
    ensures ws[i + 1].executed == ws[i].executed + [review.plan]
  {
    StepOpensReview(ws, events, j, |ws[j].reviews|);
    RegistriesStayOk(ws, events, j);
    SealingIsSound(ws[j], events[j]);
    RecordsUnchanged(ws, events, j, i, review.plan.context.contents);
    ReceiptStays(ws, events, k, i, review.plan.planDigest);
    ExecutedIffReceipt(ws, events, j, i, review);
  }

  /**
   * From preflight to execution: the plan sealed at step j is executed at step i if at some step k in between another
   * principal, who may approve at that moment, approves it presenting both digests, the records stay, and the
   * receipt is not dropped afterwards.
   */
  lemma ApprovedPlanIsExecuted(
    ws: seq<World>, events: seq<Event>, j: nat, k: nat, i: nat, review: Review, receipt: Receipt)
    requires IsRun(ws, events) && j < k < i < |events|
    requires ws[j + 1].reviews == ws[j].reviews + [review]
    requires events[k].SubmitReview? && events[k].thread < |ws[k].reviews|
    requires ws[k].reviews[events[k].thread] == review && ApprovedWell(ws[k], events[k], review, receipt)
    requires forall n :: j <= n < i ==> LeavesRecords(ws[n], events[n], review.plan.context.contents)
    requires forall n :: k < n < i ==> events[n] != DropReceipt(review.plan.planDigest)
    requires events[i].Execute? && events[i].plan == review.plan
    ensures ws[i + 1].executed == ws[i].executed + [review.plan]
  {
    ReceiptIssuedIff(ws[k], events[k], receipt);
    ApprovalIsStored(ws, events, k, receipt);
    NoSpuriousDenial(ws, events, j, k + 1, i, review);
  }
}
