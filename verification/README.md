# A model of the PlatformOps control plane

PlatformOps decides deterministically, behind injected I/O, who may provision what and when. This Dafny project
models those decisions and proves what they guarantee, over all inputs and, for the stateful parts, over every
interleaving of their operations.

| file | what it models |
|---|---|
| `Graphs.dfy`, `TopologyValidator.dfy` | the topology validator: unit and edge checks, then Kahn's worklist |
| `ResourceScopes.dfy`, `ScopeAccess.dfy`, `Governance.dfy`, `ProviderBindings.dfy` | the registries, the authorizer, the guardrails, the binding resolver |
| `ContextDigests.dfy`, `ContextCollisions.dfy`, `ProvisionPlans.dfy`, `ProvisionAnswers.dfy`, `ProvisionPipeline.dfy`, `ProvisionRevocation.dfy` | sealed contexts and plans, preflight, review, the execution gate, and all of them as one transition system |
| `VerificationAttempts.dfy`, `AttemptStores.dfy`, `VerifiedUsers.dfy`, `RateLimiter.dfy` | passwordless registration: attempts, users, sessions, the sliding-window limiter |
| `Clarification.dfy`, `ClarificationRuns.dfy` | the clarification harness, split at its awaits, and every interleaving of its calls |
| `AccessCeiling.dfy`, `ScopeHints.dfy`, `DynamicCards.dfy` | capability resolution, the scope-hint text form, the card compiler |
| `Wrappers.dfy`, `Sequences.dfy`, `OrderedDicts.dfy`, `Strings.dfy`, `GatewaySchemas.dfy` | shared vocabulary |

Code that updates objects in place is modelled by classes and loops, each tied to a function on values; the laws are
lemmas about those functions. Code made of expressions is modelled by functions.

## Assumptions

- Ids generated with uuid are fresh: attempt ids, account subjects and interrupt ids are parameters that must not
  have occurred before.
- SHA-256 is injective on what it encodes. A context digest is taken over the joined text itself, so the ambiguity of
  that text is part of the model; plan, policy and approval digests are taken over JSON objects with different keys.
- Nothing but an approving review writes a receipt. A receipt may be dropped at any time.
- The requester of a review is the principal of the preflight that sealed the plan, and preflight asks for
  `REQUEST_PROVISION`.
- The gate is handed what the registries answer for the plan's scope at that moment: the active scope, if any, and
  its active bindings. `GateJudgesTheCheckedRecordIff` says what any other list of bindings would need.
- Answers of language models, directories and clocks are arbitrary inputs of the steps.
- A slug depends on Python's `isalpha`, `isalnum` and `lower`, which are parameters; the only fact used about them is
  that a colon is not alphanumeric.

## Where the code does less than one might expect

- The context digest does not determine its contents for arbitrary ids. Without separators in the ids, contents that a
  context object accepts share their text with others it accepts exactly when their first grant or guardrail reads
  like a binding they do not have yet, or the last of several bindings reads like a grant or guardrail
  (`SharesItsTextIff`, `BindingCanPoseAsGrant`). For contexts with one binding on both sides, the only ones sealing
  produces and the gate accepts, the separator is the only trouble (`SingleBindingContentsAreDigestedApart`), and how
  much trouble is exact too (`SharesItsTextWithSeparatorsIff`, `SeparatorCanSplitAnId`). While the scope id, the path
  and the binding id have no separator, separators in grant and guardrail ids cannot change the scope, the path, the
  versions or the binding (`RoutingIsDigestedApart`).
- Given two records with one binding id, the gate may judge the wrong provider (`GateJudgesTheCheckedRecordIff`,
  `RepeatedIdMisleadsTheGate`, `WrongProviderExample`). The registry, keyed by id, never produces such a list.
- The in-memory store consumes the first attempt that answers a digest and the SQL statement consumes all of them;
  they agree exactly when at most one answers (`ConsumeAgreesWithSqlIff`), and over a run exactly as long as every
  confirmation finds at most one (`StoresAgreeIff`, `SharedDigestExample`).
- The rate limiter forgets when the clock goes back (`ClockGoingBackForgets`): its lists count in full exactly when no
  allowed call came so late that it pruned a time still inside the window now (`EmailListCountsInFullIff`,
  `SourceListCountsInFullIff`).

## Model

| member | source | states |
|---|---|---|
| TopologyValidator.StaticErrorMeaning | workflows/provision/topology.py:90-124 | the ordered checks pass exactly when profile and provider match, unit ids are distinct and registered, edges join distinct known units without repetition, and bound outputs name other known units |
| TopologyValidator.FirstFailingCheck | workflows/provision/topology.py:90-124 | the checks come in the order profile, provider, units, edges, inputs; the first position that fails the first failing check decides which error is reported, with which ids |
| TopologyValidator.CheckUnits | workflows/provision/topology.py:95-101 | accepts with the ids in declaration order, or reports the first failing unit check |
| TopologyValidator.BuildEdgeMaps | workflows/provision/topology.py:103-113 | the two maps mirror the edge list in order, or the first failing edge check is reported |
| TopologyValidator.CheckInputs | workflows/provision/topology.py:115-124 | reports the first binding of an unknown or own output, if any |
| TopologyValidator.SourcesMirrorEdges | workflows/provision/topology.py:112 | a unit's predecessors are exactly the sources of its edges, without repetition |
| TopologyValidator.Release | workflows/provision/topology.py:132-135 | lowers each successor's count by one and enqueues exactly those that reach zero, so the queue never holds a unit twice |
| TopologyValidator.DrainStep | workflows/provision/topology.py:126-135 | `indegree[u]` stays the number of undrained predecessors of u |
| TopologyValidator.DrainQueue | workflows/provision/topology.py:127-135 | the worklist terminates with an empty queue; every unit enters it at most once, after all its predecessors were drained |
| TopologyValidator.RemainderIsStuck | workflows/provision/topology.py:129-137 | when the queue is empty every undrained unit waits for another undrained unit |
| TopologyValidator.Drain | workflows/provision/topology.py:126-137 | either all units come out in a topological order or the undrained ones contain a cycle |
| Graphs.StuckImpliesCycle | workflows/provision/topology.py:136-137 | a non-empty set of units that all wait for one another contains a cycle |
| Graphs.OrderedImpliesAcyclic | workflows/provision/topology.py:136-144 | a graph with a topological order has no cycle |
| TopologyValidator.ValidateTopology | workflows/provision/topology.py:83-144 | accepts if and only if the static checks hold and the edges are acyclic; "must be acyclic" exactly when they hold and there is a cycle; otherwise the first static error; reports roots and leaves in order and every unit's predecessors |
| TopologyValidator.EveryUnitIsConnected | workflows/provision/topology.py:139-144 | in an accepted topology every unit is reachable from a reported root and reaches a reported leaf |
| TopologyValidator.RootsAndLeavesExist | workflows/provision/topology.py:61-69 | an accepted topology has a root and a leaf |
| ResourceScopes.PathInjective | gateway/resource_scope_registry.py:21-26 | with accepted slugs, equal canonical paths mean equal five slugs |
| ResourceScopes.CanonicalPathReads | gateway/resource_scope_registry.py:110-113 | the path of a scope with accepted slugs names the five levels in order, each followed by its slug |
| ResourceScopes.SlugAcceptedIff | gateway/resource_scope_registry.py:21-26 | a slug is accepted exactly if it has 1 to 63 lower-case letters, digits and hyphens and starts with a letter |
| ResourceScopes.MapsStayInverse | gateway/resource_scope_registry.py:142-151 | after any registrations, renames and rejections the two maps are inverse to each other |
| ResourceScopes.HeldWasLastAccepted | gateway/resource_scope_registry.py:142-151 | what the registry holds under an id is the last submission of that id that was accepted |
| ResourceScopes.LastAcceptedIsHeld | gateway/resource_scope_registry.py:142-151 | and the last accepted submission of an id is what it holds |
| ResourceScopes.RegisteredIsResolved | gateway/resource_scope_registry.py:142-155 | after an accepted registration the scope resolves to the new record exactly if its six states are active, and every other scope as before |
| ResourceScopes.RejectedExactlyOnAddressClash | gateway/resource_scope_registry.py:142-146 | a registration is rejected exactly when another scope holds the same five slugs |
| ResourceScopes.OneScopePerAddress | gateway/resource_scope_registry.py:110-113 | no two registered scopes share a five-slug address |
| ResourceScopes.InMemoryReviewedResourceScopeRegistry.RegisterReviewed | gateway/resource_scope_registry.py:142-151 | in place, accepted exactly if no other scope holds the path; then the id holds the new record and the path entry of a renamed scope moves; a rejected scope changes neither dictionary |
| ScopeAccess.AuthorizeIffHolds | gateway/resource_scope_access.py:155-208 | allowed exactly when the scope and its levels are active, the user is a member of the organization or any other principal affiliated with it, and an active record lists the action, names the principal or a group of it, and covers the environment and the scope |
| ScopeAccess.MatchedIdsMeaning | gateway/resource_scope_access.py:159-163 | the reported ids are those of the active bindings that apply |
| ScopeAccess.InMemoryRoleBindingStore.constructor | gateway/resource_scope_access.py:109-110 | the store starts with the last given record of each id and nothing else |
| ScopeAccess.InMemoryRoleBindingStore.Replace | gateway/resource_scope_access.py:118-119 | afterwards the id names the new record, in its old place; the record is consulted exactly when it is active, any other record exactly when it is active under another id |
| Governance.DecisionMeaning | gateway/resource_scope_governance.py:63-79 | allowed exactly when no applicable policy denies or restricts the request away and any requested approval is present |
| Governance.ProviderCheckMeaning | gateway/resource_scope_governance.py:68-70 | the intersection check says that every non-empty restriction contains the provider |
| Governance.ApprovalRequiredMeaning | gateway/resource_scope_governance.py:71-78 | approval_required exactly when approval alone would turn the refusal into an allowance |
| Governance.MorePoliciesNeverAllowMore | gateway/resource_scope_governance.py:10-19 | more applicable policies never turn a refusal into an allowance |
| Governance.PolicyOrderDoesNotMatter | gateway/resource_scope_governance.py:63-79 | decisions do not depend on the order or repetition of policies, nor on policies that do not apply to the scope |
| Governance.RolesReachWhatPoliciesGovern | gateway/resource_scope_access.py:195-208 | a role target covers what a policy on it governs, above the environment only with inheritance |
| Governance.MatchedTargetsMeaning | gateway/resource_scope_governance.py:30-39 | the reported targets are those of exactly the policies on the scope's hierarchy |
| Governance.LabelsTellTargetsApart | gateway/resource_scope_governance.py:30-39 | two reported targets are equal exactly if their kind and id are |
| ProviderBindings.ResolvesExactlyTheOnlyCandidate | gateway/resource_scope_bindings.py:135-142 | resolves to a binding exactly when it is the scope's only active eligible one |
| ProviderBindings.SetStateMeaning | gateway/resource_scope_bindings.py:79-90 | a binding set to any state but active leaves the active bindings of its scope and one set to active joins them; every other record is active for its scope as before |
| ProviderBindings.InMemoryBindingRegistry.RegisterReviewed | gateway/resource_scope_bindings.py:75-77 | the id holds the new record, every other id what it held |
| ProviderBindings.InMemoryBindingRegistry.ChangeState | gateway/resource_scope_bindings.py:79-84 | changes the state and nothing else; an unknown id changes nothing |
| ContextDigests.ReadsBackIffClean | gateway/resolved_resource_scope.py:107-124 | the digested text can be read back to its inputs exactly when no id contains the separator and no binding id starts like a grant or guardrail |
| ContextDigests.CleanContentsAreDigestedApart | gateway/resolved_resource_scope.py:107-124 | clean contents with the same text are equal |
| ContextDigests.SingleBindingContentsAreDigestedApart | gateway/resolved_resource_scope.py:46-70 | contents with one binding and no separator in an id are equal if their text is |
| ContextCollisions.SharesItsTextIff | gateway/resolved_resource_scope.py:107-124 | among well-formed contents without separators and without repeated binding ids, some other contents have the same text exactly when the first field after the bindings reads like a binding with a new id, or the last of several bindings reads like a grant, or like a guardrail with no grant behind it |
| ContextDigests.RoutingIsDigestedApart | gateway/resolved_resource_scope.py:107-124 | equal texts of one-binding contents mean the same scope, path, scope version, binding id and binding version if those ids contain no separator, whatever the evidence ids contain |
| ContextCollisions.BindingCanPoseAsGrant | gateway/resolved_resource_scope.py:116-123 | two different well-formed contents with the same text: a binding id that starts with "grant:" |
| ContextCollisions.SharesItsTextWithSeparatorsIff | gateway/resolved_resource_scope.py:46-70 | one-binding contents without separators share their text with other one-binding contents, whose ids may contain them, exactly when they name two grants or guardrails, or one that ends like a binding |
| ContextCollisions.SeparatorCanSplitAnId | gateway/resolved_resource_scope.py:116-124 | two different one-binding contents with the same text: a role-binding id with the separator |
| ProvisionPlans.PreflightNeverRaises | workflows/provision/preflight.py:71-106 | preflight passes every guard of sealing; it yields a context exactly for an authorized request with one eligible active binding that governance allows or would allow with approval |
| ProvisionAnswers.PreflightAnswers | workflows/provision/preflight.py:71-106 | which of the four answers: non-routable without an active scope or, for an authorized request, without a sole candidate; denied to others and when a policy objects; approval required exactly when nobody objects and a policy asks; ready when nobody does |
| ProvisionAnswers.SealAnswers | gateway/resolved_resource_scope.py:55-70 | which refusal sealing gives, and the contents it copies from the records and decisions |
| ProvisionAnswers.ReviewAnswers | workflows/provision/approval_graph.py:38-65 | which of the seven answers a review gives, on the reviewer, the verdict, the digests and the approval right |
| ProvisionAnswers.GateAnswers | gateway/provision_execution.py:69-91 | which refusal the gate gives: no matching receipt, then records that changed, then several bindings, then a policy that denies or excludes the provider |
| ProvisionPlans.OnlyTheNamedProvider | gateway/resource_scope_governance.py:68-70 | a policy that allows one provider by name admits the bindings of that provider and no others |
| ProvisionPlans.PreflightDescribes | gateway/resolved_resource_scope.py:55-70 | a sealed context carries the path and version of the active scope and the version of its single active binding |
| ProvisionPlans.ContextRecordsTheDecisions | gateway/resolved_resource_scope.py:61-68 | a sealed context names the bindings that granted the request and the policies that applied |
| ProvisionPlans.GatePassesIff | gateway/provision_execution.py:64-98 | on current records the executor is called exactly when the receipt matches, the context still describes the records and governance allows the sealed binding's provider |
| ProvisionPlans.VersionsOfActive | gateway/resolved_resource_scope.py:88-93 | freshness compares the version of the last active record of the scope with the id |
| ProvisionPlans.GateJudgesTheCheckedRecordIff | gateway/provision_execution.py:76-87 | governance judges the record found fresh exactly when the last record with the sealed id is active for the scope; distinct ids suffice |
| ProvisionPlans.RepeatedIdMisleadsTheGate | gateway/provision_execution.py:76-87 | with a dead record after a live one under one id, the dead one's provider decides |
| ProvisionPlans.WrongProviderExample | gateway/provision_execution.py:76-92 | a concrete aws plan that passes although governance allows only gcp |
| ProvisionPipeline.SealingIsSound | workflows/provision/preflight.py:71-106 | a plan is sealed only for an authorized requester, with the policy and inputs asked for and one binding of an eligible provider, on records that justify it |
| ProvisionPipeline.ReceiptIssuedIff | workflows/provision/approval_graph.py:38-65 | a receipt is issued exactly when a reviewer other than the requester approves, presents both digests and holds the approval right; it names that reviewer and the plan's digests |
| ProvisionPipeline.SameDigestSamePlan | gateway/provision_plan.py:60-100 | valid one-binding plans with equal plan digests are equal if no id contains the separator |
| ProvisionPipeline.PassingIsSound | gateway/provision_execution.py:69-98 | in any world the executor is called exactly when the stored receipt matches and the records justify the plan; the evidence names plan, approval, context, binding, approver and time |
| ProvisionPipeline.ExecutionIsSafe | gateway/provision_execution.py:64-98 | over every run: an executed plan was sealed for an authorized requester, then approved by another principal who was an approver when approving, and is justified by the records and governance of the moment of the call; it has the policy and inputs of the reviewed plan, the same scope, path, versions and binding unless one of those ids contains the separator, and is the reviewed plan unless some id does |
| ProvisionPipeline.EverythingExecutedWasSafe | gateway/provision_execution.py:92 | every plan in the executor's trace was executed by a step that ends such a chain |
| ProvisionPipeline.ReviewOrigin | workflows/provision/approval_graph.py:24-29 | every review is of a plan some earlier preflight sealed, for its principal |
| ProvisionPipeline.ReceiptOrigin | gateway/provision_execution.py:47-50 | every stored receipt was issued by an earlier review |
| ProvisionPipeline.ExecutedIffReceipt | gateway/provision_execution.py:69-91 | once the plan's scope, binding and applicable policies are what they were when preflight sealed it, submitting the plan executes it exactly if a receipt is stored for it, whatever happened in between |
| ProvisionPipeline.NoSpuriousDenial | gateway/provision_execution.py:69-91 | a plan that preflight sealed and that has a receipt is executed whenever it is submitted, as long as its scope, its binding, the policies that apply to its scope and its receipt stay; other records, roles and memberships may change |
| ProvisionPipeline.ApprovedPlanIsExecuted | workflows/provision/approval_graph.py:38-65 | from preflight to execution: a sealed plan that another principal, an approver at that moment, approves with both digests is executed when submitted later, under the same conditions |
| ProvisionRevocation.LastWriterDecides | gateway/provision_execution.py:69-91 | over every run a record, directory, policy list or dropped receipt stays as its last writer left it |
| ProvisionRevocation.RevocationStopsExecution | gateway/provision_execution.py:69-91 | once a level of the scope or the sealed binding is no longer active, a policy denies provisioning or the receipt is dropped, the plan is not executed until that is written again |
| ProvisionRevocation.RevocationStopsAuthority | gateway/resource_scope_access.py:155-192 | a user without membership, or whose only granting role is revoked, seals no plan and is issued no receipt until that is written again |
| VerificationAttempts.OneLiveAttemptPerEmail | gateway/auth/registration.py:213-222 | an email has at most one attempt that is neither consumed nor invalidated |
| VerificationAttempts.OnlyTheNewestLinkWorks | gateway/auth/registration.py:213-222 | after a save no older attempt of the email answers any digest |
| VerificationAttempts.SaveRefinesSql | gateway/auth/postgres.py:107-135 | for a fresh id the index-based save changes the table exactly as the full scan does |
| VerificationAttempts.IndexHolds | gateway/auth/registration.py:208-246 | over every run the index points to the live attempt of each email |
| VerificationAttempts.ConsumeAgreesWithSqlIff | gateway/auth/postgres.py:161-176 | consuming the first match equals the SQL update exactly when at most one row matches |
| VerificationAttempts.FindForetellsConsume | gateway/auth/registration.py:228-246 | a lookup succeeds exactly when consuming would, which is when some row has the digest, neither timestamp and an expiry still ahead; it shows the row that would be consumed |
| VerificationAttempts.TimestampsAreFinal | gateway/auth/registration.py:147-148 | over every run each timestamp is written at most once and no row has both |
| VerificationAttempts.ConfirmationsBounded | gateway/auth/registration.py:239-246 | a digest is consumed at most as often as attempts bearing it were saved |
| VerificationAttempts.StoresAgreeIff | gateway/auth/postgres.py:107-176 | over every run the two stores hold the same table at every point exactly when each confirmation finds at most one answering row |
| VerificationAttempts.SharedDigestSeparates | gateway/auth/postgres.py:165-175 | two mailboxes saved with one digest, then a confirmation: the tables differ |
| VerificationAttempts.StoresAgree | gateway/auth/postgres.py:107-176 | with unique digests the two stores hold the same table at every point of every run |
| AttemptStores.InMemoryVerificationAttemptStore.SaveNewAttempt | gateway/auth/registration.py:213-222 | on objects updated in place, invalidates the indexed attempt and stores the given one under its id, replacing one already there; for a new id that is what the full scan would do and the index stays right |
| AttemptStores.InMemoryVerificationAttemptStore.FindActiveByDigest | gateway/auth/registration.py:228-234 | returns the first stored attempt that answers, and changes nothing |
| AttemptStores.InMemoryVerificationAttemptStore.ConsumeEmailByDigest | gateway/auth/registration.py:239-246 | consumes exactly the first stored attempt that answers and returns its email |
| AttemptStores.PostgresAttemptRepository.SaveNewAttempt | gateway/auth/postgres.py:107-135 | invalidates every live row of the email and inserts; a repeated id rolls back |
| AttemptStores.PostgresAttemptRepository.ConsumeEmailByDigest | gateway/auth/postgres.py:161-176 | afterwards no row answers, rows that answered are consumed now and the others unchanged; returns the email of some answering row exactly when there is one |
| VerifiedUsers.OneSubjectPerMailbox | gateway/auth/registration.py:174-196 | under every interleaving of the two calls of a confirmation, two sessions have one subject exactly when they were confirmed from one mailbox |
| VerifiedUsers.SessionOrigin | gateway/auth/registration.py:406-415 | a session is issued for the mailbox of an attempt that the same call consumed earlier |
| VerifiedUsers.OneSessionPerConfirmation | gateway/auth/registration.py:401-415 | two sessions never come from one confirmation |
| VerifiedUsers.SessionsBounded | gateway/auth/registration.py:401-415 | under every interleaving a token yields at most as many sessions, issued or still to come, as attempts bearing its digest were begun |
| VerifiedUsers.InMemoryUserRegistrationStore.CreateOrRecoverVerifiedUser | gateway/auth/registration.py:174-196 | recovers the account of a known mailbox and changes nothing, otherwise adds one new account and its mailbox; accounts stay one per mailbox |
| RateLimiter.PruningIsInvisibleIff | gateway/auth/registration.py:309-312 | pruning at one time shows at another exactly when a pruned entry is inside the window there |
| RateLimiter.EmailListCountsInFullIff | gateway/auth/registration.py:296-312 | after any calls at any times an email's list counts what all its allowed calls count exactly when no allowed call pruned a time that counts now; it never counts more |
| RateLimiter.SourceListCountsInFullIff | gateway/auth/registration.py:296-312 | the same for a source |
| RateLimiter.AnswerIsFullUnlessForgotten | gateway/auth/registration.py:296-307 | whatever counting all allowed calls would admit is admitted, and the answers are equal while nothing that counts was forgotten |
| RateLimiter.AnswersMatchFullHistory | gateway/auth/registration.py:296-312 | a call not earlier than any before it is answered as counting all allowed calls would answer it |
| RateLimiter.SourcelessAnswer | gateway/auth/registration.py:299-301 | a request without a source, or with an empty one, is refused for its email only and charges no source |
| RateLimiter.WindowBoundUnlessForgotten | gateway/auth/registration.py:288-307 | the caps hold in every window if no call came when something that counted for it was forgotten, in whatever order the times come |
| RateLimiter.WindowBound | gateway/auth/registration.py:288-307 | with a nondecreasing clock any window (t - W, t] holds at most max_per_email allowed requests per email, and at most max_per_source that carry a given non-empty source |
| RateLimiter.ClockGoingBackForgets | gateway/auth/registration.py:309-312 | a concrete sequence with a clock that goes back, where the pruned lists answer differently |
| RateLimiter.InMemoryRegistrationRateLimiter.AllowRequest | gateway/auth/registration.py:296-307 | prunes and extends the list of the email and, for a non-empty source, of the source; a denied request changes nothing |
| Clarification.OnlyAuthorizedTenantsReachTheHandler | harness/core.py:175-200 | only a provision intent with a hint of the tenant aiq:it reaches the provision handler |
| Clarification.PrefixDecides | workflows/intake/tools.py:13-20 | a known prefix gives its own intent whatever the model answers; without one the model decides |
| Clarification.ClassifyAnswers | harness/core.py:152-200 | which outcome a classified request has, for every intent, tenant and text, and what is stored or handed on |
| Clarification.ResumeAnswers | harness/core.py:90-143 | which check refuses a resume, and by positions the text of an accepted one: the prior text, the marker, the answer |
| Clarification.DraftReports | harness/core.py:216-272 | a draft is reported ready, with its own parts, exactly if it asks nothing and is not unavailable |
| Clarification.ReportedDecisions | workflows/intake/nodes.py:74-122 | a decision reported without the handler is ready only for a compliance check, and otherwise says why not |
| Clarification.PlatformOpsHarness.ResumeClarification | harness/core.py:90-143 | rejections come in order and leave the map alone; an acceptance pops its own entry and continues its stage with the prior text, the marker and the answer |
| Clarification.PlatformOpsHarness.AfterClassify | harness/core.py:152-200 | stores the question under the request, reports the route, or enters the handler |
| Clarification.PlatformOpsHarness.AfterDispatch | harness/core.py:211-272 | stores the question under the request, reports an unavailable draft with its reason, or reports the profile, scope and application request as ready |
| ClarificationRuns.RejectedAnswerChangesNothing | harness/core.py:94-114 | a rejected resume changes nothing |
| ClarificationRuns.AtMostOneResume | harness/core.py:100-115 | under every interleaving an interrupt id is accepted by at most one resume |
| ClarificationRuns.ResumesAnswerTheirQuestion | harness/core.py:100-106 | an accepted resume, from an unexpired session and with a non-empty answer, answers a question asked earlier on the same request and of the same actor |
| ClarificationRuns.InvHolds | harness/core.py:73-235 | in every reachable state each call and each pending entry carries its own dialogue, with text, hint and round that fit it |
| ClarificationRuns.DialoguesAreBounded | harness/core.py:110-143 | from one start_run with cap N at most 2(N - 1) resumes are accepted and 2(N - 1) + 1 questions asked; 2 and 3 for the code's cap |
| ClarificationRuns.BoundIsReached | harness/core.py:43 | for every cap some run reaches both numbers |
| ClarificationRuns.HandlerCallsHaveProvenance | harness/core.py:117-123 | every handler call has the hint of the start_run that began its dialogue, an allowed tenant, and the original text followed by marker and answer for each accepted answer, in order; no such dialogue began with the prefix of another intent |
| AccessCeiling.ResolvesToLeastOfMostSpecific | gateway/policy/ceiling.py:63-75 | the least capability of the most specific matching grants, and no access without a match |
| AccessCeiling.FieldMeaning | gateway/policy/ceiling.py:49-60 | an entry matches if organization and unit are equal and each other field is open or equal; specificity counts the fields that are not open |
| AccessCeiling.CapabilitiesInOrder | gateway/auth/schemas.py:29-60 | the capabilities are ordered from none to admin |
| AccessCeiling.GrantOrderDoesNotMatter | gateway/policy/ceiling.py:63-75 | order and repetition of grants do not matter |
| AccessCeiling.LessSpecificGrantIsIgnored | gateway/policy/ceiling.py:15-19 | a grant that does not match or is less specific than a match changes nothing |
| AccessCeiling.MoreGrantsOfTopSpecificity | gateway/policy/ceiling.py:21-26 | an equally specific grant never raises the answer; a more specific one decides it |
| AccessCeiling.CeilingMeaning | gateway/policy/ceiling.py:78-98 | raises exactly when two most specific entries disagree, otherwise is what they all say |
| AccessCeiling.EffectiveAccessIsGreatestLowerBound | gateway/policy/ceiling.py:101-109 | the greatest capability both halves allow |
| AccessCeiling.NoGrantNoAccess | gateway/policy/ceiling.py:7-10 | deny by default in both halves |
| AccessCeiling.VisibleIff | gateway/scope.py:58-94 | a hint resolves exactly when complete, known, and granted by every most specific match; it asks exactly when project or workspace is missing |
| ScopeHints.ParseOfPrint | gateway/scope.py:41-55 | parsing the printed form gives the hint back exactly when its fields respect the separators |
| ScopeHints.PrintOfParse | gateway/scope.py:44-55 | the accepted texts are exactly the prints of printable hints, and print undoes parse |
| DynamicCards.CompileDynamicCard | interaction/dynamic_ui.py:43-82 | the two loops build the card part by part, 4 + help texts + 2 * choices components |
| DynamicCards.ComponentAt | interaction/dynamic_ui.py:53-75 | every help text and choice appears at its place in input order, and each button carries its own value and caption |
| DynamicCards.RefersToIffParent | interaction/dynamic_ui.py:46-82 | a component refers to another exactly when it is its parent in the card |
| DynamicCards.CompiledCardIsTree | interaction/dynamic_ui.py:43-82 | ids are distinct, references resolve, and exactly one path of references leads from "root" to each component |

## Left out

- VerifiedUsers.SessionsBounded: bounds sessions by digest, because two tokens sharing a digest are not told apart; HMAC and the token generator are not modelled.
- Rate limiting, diagnostics and mail delivery around `request_registration`: the limiter and the stores are modelled, their wrapper is not.
- Email canonicalization: emails are canonical strings already.
- PostgreSQL connections, locks, migrations and row mapping: only the conditions of the attempt statements are taken.
- Event ids, times and actors of events beyond the decision, the questions, the draft and the interrupt id, and the evidence texts of a decision: no step depends on them.
- The classifier's, selector's and extractor's prompts: their answers are arbitrary.
- Session expiry is a flag of the call, since the clock is an input.
- Loading of topologies, policies and sessions from files, and validation by the schema library beyond the constraints the operations rely on.
- Chat commands, guest routing, onboarding, browser sessions, provider connections, wire formats, the command line and the web front end: not part of this model.
