/** What an event writes stays until another event overwrites it, and what it takes away takes effect at once. */
module ProvisionRevocation {
  import opened Wrappers
  import opened OrderedDicts
  import opened ResourceScopes
  import opened ScopeAccess
  import opened Governance
  import opened ProviderBindings
  import opened ContextDigests
  import opened ProvisionPlans
  import opened ProvisionPipeline

  /** The world holds what the event, taken in the world `before`, has written. */
  ghost predicate Recorded(w: World, before: World, ev: Event) {
    match ev
    case RegisterScope(scope) =>
      Register(before.registry, scope).Ok? ==>
        scope.scopeId in w.registry.byScopeId && w.registry.byScopeId[scope.scopeId] == scope
    case RegisterBinding(b) => b.bindingId in w.bindings.at && w.bindings.at[b.bindingId] == b
    case SetBindingState(id, state) =>
      id in before.bindings.at ==>
        id in w.bindings.at && w.bindings.at[id] == before.bindings.at[id].(state := state)
    case ReplaceRole(role) => role.bindingId in w.roles.at && w.roles.at[role.bindingId] == role
    case ReplaceDirectory(directory) => w.directory == directory
    case ReplacePolicies(policies) => w.policies == policies
    case DropReceipt(planDigest) => planDigest !in w.receipts
    case _ => true
  }

  /** The later event, taken in the world w, writes where the earlier one wrote. */
  ghost predicate Supersedes(w: World, later: Event, ev: Event) {
    match ev
    case RegisterScope(scope) =>
      later.RegisterScope? && later.scope.scopeId == scope.scopeId && Register(w.registry, later.scope).Ok?
    case RegisterBinding(b) => WritesBinding(later, b.bindingId)
    case SetBindingState(id, _) => WritesBinding(later, id)
    case ReplaceRole(role) => later.ReplaceRole? && later.role.bindingId == role.bindingId
    case ReplaceDirectory(_) => later.ReplaceDirectory?
    case ReplacePolicies(_) => later.ReplacePolicies?
    case DropReceipt(planDigest) => exists receipt :: Issues(w, later, receipt) && receipt.planDigest == planDigest
    case _ => false
  }

  predicate WritesBinding(ev: Event, id: string) {
    (ev.RegisterBinding? && ev.binding.bindingId == id) || (ev.SetBindingState? && ev.bindingId == id)
  }

  lemma StepRecords(w: World, ev: Event)
    ensures Recorded(Next(w, ev), w, ev)
  {
  }

  lemma StepKeepsRecorded(w: World, later: Event, before: World, ev: Event)
    requires Recorded(w, before, ev) && !Supersedes(w, later, ev)
    ensures Recorded(Next(w, later), before, ev)
  {
    if ev.DropReceipt? && ev.planDigest in Next(w, later).receipts {
      StepIssuesReceipts(w, later, ev.planDigest);
    }
  }

  ghost predicate NotSuperseded(ws: seq<World>, events: seq<Event>, n: nat, i: nat)
    requires n < i <= |events| && |ws| == |events| + 1
  {
    forall m :: n < m < i ==> !Supersedes(ws[m], events[m], events[n])
  }

  /** Over every run the last event that wrote a record decides what the record is. */
  lemma {:induction false} LastWriterDecides(ws: seq<World>, events: seq<Event>, n: nat, i: nat)
    requires IsRun(ws, events) && n < i <= |events| && NotSuperseded(ws, events, n, i)
    ensures Recorded(ws[i], ws[n], events[n])
    decreases i
  {
    assert Step(ws, events, i - 1);
    if n == i - 1 {
      StepRecords(ws[n], events[n]);
    } else {
      LastWriterDecides(ws, events, n, i - 1);
      StepKeepsRecorded(ws[i - 1], events[i - 1], ws[n], events[n]);
    }
  }

  // ---------- Plans ----------

  /** The event, taken in the world `before`, takes from the plan something the gate asks for in the world w. */
  ghost predicate Revokes(before: World, ev: Event, w: World, plan: SealedPlan) {
    var c := plan.context.contents;
    match ev
    case RegisterScope(scope) =>
      Register(before.registry, scope).Ok? && scope.scopeId == c.scopeId && !AllActive(scope)
    case RegisterBinding(b) => b.bindingId in c.BindingIds() && b.state != Active
    case SetBindingState(id, state) => id in before.bindings.at && id in c.BindingIds() && state != Active
    case ReplacePolicies(policies) =>
      exists p :: p in policies && RequestProvision in p.deniedActions
                  && c.scopeId in w.registry.byScopeId && Applies(p, w.registry.byScopeId[c.scopeId])
    case DropReceipt(planDigest) => planDigest == plan.planDigest
    case _ => false
  }

  lemma RevokedIsNotJustified(before: World, ev: Event, w: World, plan: SealedPlan)
    requires Recorded(w, before, ev) && Revokes(before, ev, w, plan)
    ensures !CurrentlyJustified(w, plan) || plan.planDigest !in w.receipts
  {
    var c := plan.context.contents;
    if CurrentlyJustified(w, plan) {
      assert |c.bindingVersions| == 1;
      assert c.BindingIds() == [c.bindingVersions[0].bindingId];
    }
  }

  /**
   * Once a scope or one of its levels is no longer active, the sealed binding is no longer active, a policy denies
   * provisioning there, or the receipt is dropped, the plan is not executed, until the same record is written again.
   */
  lemma RevocationStopsExecution(ws: seq<World>, events: seq<Event>, n: nat, i: nat)
    requires IsRun(ws, events) && n < i < |events| && NotSuperseded(ws, events, n, i)
    requires events[i].Execute? && Revokes(ws[n], events[n], ws[i], events[i].plan)
    ensures ws[i + 1].executed == ws[i].executed
  {
    LastWriterDecides(ws, events, n, i);
    RevokedIsNotJustified(ws[n], events[n], ws[i], events[i].plan);
    RegistriesStayOk(ws, events, i);
    assert Step(ws, events, i);
    PassingIsSound(ws[i], events[i]);
    StepExecutesAt(ws, events, i);
  }

  // ---------- Principals ----------

  /** The event takes the membership of a user, or the one role record that would grant the request in the world w. */
  ghost predicate RevokesAuthority(ev: Event, w: World, req: AuthorizationRequest) {
    && req.scopeId in w.registry.byScopeId
    && var scope := w.registry.byScopeId[req.scopeId];
       match ev
       case ReplaceDirectory(directory) =>
         req.principal.kind == User
         && (req.principal.principalId, scope.organization.organizationId) !in directory.memberships
       case ReplaceRole(role) =>
         role.state == RevokedRole
         && forall id :: id in w.roles.at && id != role.bindingId ==> !Grants(w.roles.at[id], req, scope, w.directory)
       case _ => false
  }

  lemma RevokedDoesNotHold(before: World, ev: Event, w: World, req: AuthorizationRequest)
    requires Recorded(w, before, ev) && RevokesAuthority(ev, w, req)
    ensures !Holds(w.registry, w.roles, w.directory, req)
  {
  }

  /** A user whose membership or last role is gone seals no plan and is issued no receipt until it is written again. */
  lemma RevocationStopsAuthority(ws: seq<World>, events: seq<Event>, n: nat, i: nat)
    requires IsRun(ws, events) && n < i < |events| && NotSuperseded(ws, events, n, i)
    ensures events[i].RunPreflight?
            && RevokesAuthority(
                 events[n], ws[i], AuthorizationRequest(events[i].principal, RequestProvision, events[i].scopeId))
            ==> ws[i + 1].reviews == ws[i].reviews
    ensures events[i].SubmitReview? && events[i].thread < |ws[i].reviews| && events[i].reviewer.Some?
            && RevokesAuthority(
                 events[n], ws[i],
                 AuthorizationRequest(
                   events[i].reviewer.value, ApproveProvision,
                   ws[i].reviews[events[i].thread].plan.context.contents.scopeId))
            ==> ws[i + 1].receipts == ws[i].receipts
  {
    LastWriterDecides(ws, events, n, i);
    assert Step(ws, events, i);
    var w, ev := ws[i], events[i];
    if ev.RunPreflight? {
      var req := AuthorizationRequest(ev.principal, RequestProvision, ev.scopeId);
      if RevokesAuthority(events[n], w, req) {
        RevokedDoesNotHold(ws[n], events[n], w, req);
        RegistriesStayOk(ws, events, i);
        if SealedBy(w, ev).Some? {
          SealingIsSound(w, ev);
        }
      }
    } else if ev.SubmitReview? && ev.thread < |w.reviews| && ev.reviewer.Some? {
      var req := AuthorizationRequest(
        ev.reviewer.value, ApproveProvision, w.reviews[ev.thread].plan.context.contents.scopeId);
      if RevokesAuthority(events[n], w, req) {
        RevokedDoesNotHold(ws[n], events[n], w, req);
        if OutcomeOf(w, ev).Ok? && OutcomeOf(w, ev).value.Approved? {
          ReceiptIssuedIff(w, ev, OutcomeOf(w, ev).value.receipt);
        }
      }
    }
  }
}
