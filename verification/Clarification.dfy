/**
 * The clarification protocol of the harness: what each call does between two awaits, on the one map of
 * pending clarifications that all calls share.
 */
module Clarification {
  import opened Wrappers
  import opened GatewaySchemas

  // ---------- Routing ----------

  function ResolveRouteId(intent: Intent): Option<string> {
    match intent
    case ComplianceCheck => Some("compliance_check")
    case Provision => Some("provision")
    case Inquiry => None
  }

  const REGISTERED_ROUTES := {"provision"}
  const TENANT_POLICY := {("aiq:it", Provision)}

  /** Deny by default. */
  predicate CheckTenantPolicy(orgBu: string, intent: Intent) {
    (orgBu, intent) in TENANT_POLICY
  }

  datatype IntakeDecision = IntakeDecision(
    intent: Option<Intent>,
    questions: seq<string>,
    route: Option<string>,
    readyToRoute: bool,
    mutationRequested: bool,
    unsupportedReason: Option<string>)

  /** The model's answer: one intent, or a question when none fits. */
  datatype Classification = Fits(intent: Intent) | Unclear(question: string)

  /** Inquiry is the only intent without a route. */
  const NOT_IMPLEMENTED := "no workflow implemented for intent 'inquiry' yet"
  const TENANT_REFUSED := "tenant not authorized for this route"

  function MatchPrefix(text: string): Option<Intent> {
    if "provision: " <= text then Some(Provision)
    else if "inquiry: " <= text then Some(Inquiry)
    else if "compliance_check: " <= text then Some(ComplianceCheck)
    else None
  }

  /** A text with a known prefix is classified without the model. */
  function Classify(text: string, answer: Classification): IntakeDecision {
    match (MatchPrefix(text), answer)
    case (Some(intent), _) => IntakeDecision(Some(intent), [], None, false, false, None)
    case (None, Fits(intent)) => IntakeDecision(Some(intent), [], None, false, false, None)
    case (None, Unclear(question)) => IntakeDecision(None, [question], None, false, false, None)
  }

  function ResolveRoute(d: IntakeDecision): IntakeDecision {
    if d.intent.None? then d
    else
      var route := ResolveRouteId(d.intent.value);
      if route.Some? then
        d.(route := route, readyToRoute := true, mutationRequested := d.intent.value == Provision)
      else
        d.(route := None, readyToRoute := false, mutationRequested := d.intent.value == Provision,
           unsupportedReason := Some(NOT_IMPLEMENTED))
  }

  // ---------- Requests, pending clarifications, suspended calls ----------

  datatype IntakeRequest = IntakeRequest(rawText: string, clarificationRound: nat)
  datatype Invocation = Invocation(rawText: string, scopeHint: ScopeHint)

  datatype Pending =
    | IntakePending(interruptId: string, actorId: string, scopeHint: Option<ScopeHint>, request: IntakeRequest)
    | ProvisionPending(interruptId: string, actorId: string, invocation: Invocation, round: nat)

  type PendingMap = map<string, Pending>

  /** A call suspended at an await: in the intake classifier, or in the provision handler. */
  datatype Await =
    | Classifying(actorId: string, requestId: string, request: IntakeRequest, scopeHint: Option<ScopeHint>)
    | Dispatching(actorId: string, requestId: string, invocation: Invocation, round: nat)

  datatype Error =
    | SessionExpired | NothingPending | WrongInterrupt | WrongActor | EmptyAnswer | RoundCapReached
    | InvalidInvocation

  datatype Outcome =
    | AsksQuestion(interruptId: string, questions: seq<string>)
    | RouteResolved(decision: IntakeDecision)
    | DraftReported(report: DraftReport)
    | Suspends(next: Await)
    | Raises(error: Error)

  datatype Actor = Actor(userId: string, expired: bool)

  datatype StaticWebRequest =
    StaticWebRequest(profileId: string, scope: Scope, frontendArtifactUri: string, frontendHostname: string)

  /** What the provision handler returns. */
  datatype Draft = Draft(
    scope: Option<Scope>,
    profileId: Option<string>,
    applicationRequest: Option<StaticWebRequest>,
    questions: seq<string>,
    unavailableReason: Option<string>)

  /** The resolved provision route as it is reported; an unavailable draft is reported without its parts. */
  datatype DraftReport = DraftReport(
    readyToRoute: bool,
    unsupportedReason: Option<string>,
    profileId: Option<string>,
    scope: Option<Scope>,
    applicationRequest: Option<StaticWebRequest>)

  function WithAnswer(text: string, answer: string): string {
    text + "\n\nClarification: " + answer
  }

  // ---------- The segments between awaits ----------

  function StartRun(actor: Actor, requestId: string, text: string, hint: Option<ScopeHint>): Result<Await, Error> {
    if actor.expired then Err(SessionExpired)
    else Ok(Classifying(actor.userId, requestId, IntakeRequest(text, 0), hint))
  }

  /** Every check comes before the pop, and nothing suspends between the checks and the pop. */
  function Resume(
    pending: PendingMap, cap: nat, actor: Actor, requestId: string, interruptId: string, answer: string)
    : Result<(PendingMap, Await), Error>
  {
    if actor.expired then Err(SessionExpired)
    else if requestId !in pending then Err(NothingPending)
    else
      var p := pending[requestId];
      if p.interruptId != interruptId then Err(WrongInterrupt)
      else if p.actorId != actor.userId then Err(WrongActor)
      else if answer == "" then Err(EmptyAnswer)
      else
        match p
        case ProvisionPending(_, _, invocation, round) =>
          if round + 1 >= cap then Err(RoundCapReached)
          else
            Ok((pending - {requestId},
                Dispatching(
                  actor.userId, requestId, Invocation(WithAnswer(invocation.rawText, answer), invocation.scopeHint),
                  round + 1)))
        case IntakePending(_, _, hint, prior) =>
          if prior.clarificationRound + 1 >= cap then Err(RoundCapReached)
          else
            Ok((pending - {requestId},
                Classifying(
                  actor.userId, requestId,
                  IntakeRequest(WithAnswer(prior.rawText, answer), prior.clarificationRound + 1), hint)))
  }

  /** After the intake classifier returns. `eventId` is the id generated for a question. */
  function ClassifyReturned(pending: PendingMap, k: Await, answer: Classification, eventId: string)
    : (PendingMap, Outcome)
    requires k.Classifying?
  {
    var decision := ResolveRoute(Classify(k.request.rawText, answer));
    if decision.questions != [] then
      (pending[k.requestId := IntakePending(eventId, k.actorId, k.scopeHint, k.request)],
       AsksQuestion(eventId, decision.questions))
    else if decision.route.None? || decision.route.value !in REGISTERED_ROUTES then
      (pending, RouteResolved(decision))
    else if k.scopeHint.None? || !CheckTenantPolicy(k.scopeHint.value.tenant.OrgBu(), decision.intent.value) then
      (pending, RouteResolved(decision.(readyToRoute := false, unsupportedReason := Some(TENANT_REFUSED))))
    else if k.request.rawText == "" then (pending, Raises(InvalidInvocation))
    else
      (pending,
       Suspends(Dispatching(k.actorId, k.requestId, Invocation(k.request.rawText, k.scopeHint.value), 0)))
  }

  /** After the provision handler returns. */
  function DispatchReturned(pending: PendingMap, k: Await, draft: Draft, eventId: string): (PendingMap, Outcome)
    requires k.Dispatching?
  {
    if draft.questions != [] then
      (pending[k.requestId := ProvisionPending(eventId, k.actorId, k.invocation, k.round)],
       AsksQuestion(eventId, draft.questions))
    else if draft.unavailableReason.Some? then
      (pending, DraftReported(DraftReport(false, draft.unavailableReason, None, None, None)))
    else
      (pending, DraftReported(DraftReport(true, None, draft.profileId, draft.scope, draft.applicationRequest)))
  }

  /** Whatever the classifier answers, only a provision intent of an authorized tenant reaches the handler. */
  lemma OnlyAuthorizedTenantsReachTheHandler(
    pending: PendingMap, k: Await, answer: Classification, eventId: string)
    requires k.Classifying?
    requires ClassifyReturned(pending, k, answer, eventId).1.Suspends?
    ensures k.scopeHint.Some? && k.scopeHint.value.tenant == Tenant("aiq", "it")
    ensures Classify(k.request.rawText, answer).intent == Some(Provision)
  {
    var decision := ResolveRoute(Classify(k.request.rawText, answer));
    assert "compliance_check"[0] != "provision"[0];
    assert decision.intent == Some(Provision);
    OnlyOneTenant(k.scopeHint.value.tenant);
  }

  /** What becomes of a classified request, for every intent, tenant and text. */
  lemma ClassifyAnswers(pending: PendingMap, k: Await, answer: Classification, eventId: string)
    requires k.Classifying?
    ensures var (after, outcome) := ClassifyReturned(pending, k, answer, eventId);
            var intent := Classify(k.request.rawText, answer).intent;
            var admitted := k.scopeHint.Some? && k.scopeHint.value.tenant == Tenant("aiq", "it");
            && (intent == None <==> outcome.AsksQuestion?)
            && (outcome.AsksQuestion? ==>
                  && answer.Unclear? && outcome == AsksQuestion(eventId, [answer.question])
                  && after == pending[k.requestId := IntakePending(eventId, k.actorId, k.scopeHint, k.request)])
            && (outcome.RouteResolved? <==>
                  || intent == Some(Inquiry) || intent == Some(ComplianceCheck)
                  || (intent == Some(Provision) && !admitted))
            && (outcome == Raises(InvalidInvocation) <==>
                  intent == Some(Provision) && admitted && |k.request.rawText| == 0)
            && (outcome.Suspends? <==> intent == Some(Provision) && admitted && |k.request.rawText| > 0)
            && (outcome.Suspends? ==>
                  outcome.next ==
                  Dispatching(k.actorId, k.requestId, Invocation(k.request.rawText, k.scopeHint.value), 0))
            && (!outcome.AsksQuestion? ==> after == pending)
  {
    assert "compliance_check"[0] != "provision"[0];
    assert Tenant("aiq", "it").OrgBu() == "aiq:it";
    if k.scopeHint.Some? && k.scopeHint.value.tenant.OrgBu() == "aiq:it" {
      OnlyOneTenant(k.scopeHint.value.tenant);
    }
  }

  /**
   * A decision reported without a handler call is ready to route only for a compliance check, which has a route
   * but no handler; otherwise it says why it is not supported.
   */
  lemma ReportedDecisions(pending: PendingMap, k: Await, answer: Classification, eventId: string)
    requires k.Classifying?
    requires ClassifyReturned(pending, k, answer, eventId).1.RouteResolved?
    ensures var d := ClassifyReturned(pending, k, answer, eventId).1.decision;
            && (d.readyToRoute <==> d.intent == Some(ComplianceCheck))
            && (d.unsupportedReason.Some? <==> !d.readyToRoute)
            && (d.intent == Some(Inquiry) ==>
                  d.unsupportedReason == Some("no workflow implemented for intent 'inquiry' yet"))
            && (d.intent == Some(Provision) ==> d.unsupportedReason == Some("tenant not authorized for this route"))
            && (d.mutationRequested <==> d.intent == Some(Provision))
            && d.intent.Some?
            && d.route == (match d.intent.value
                           case Provision => Some("provision")
                           case ComplianceCheck => Some("compliance_check")
                           case Inquiry => None)
            && ClassifyReturned(pending, k, answer, eventId).0 == pending
  {
    assert "compliance_check"[0] != "provision"[0];
  }

  /** A known prefix decides the intent whatever the model answers; without one the model decides. */
  lemma PrefixDecides(text: string, rest: string, answer: Classification)
    ensures Classify("provision: " + rest, answer).intent == Some(Provision)
    ensures Classify("inquiry: " + rest, answer).intent == Some(Inquiry)
    ensures Classify("compliance_check: " + rest, answer).intent == Some(ComplianceCheck)
    ensures !("provision: " <= text) && !NamesOtherIntent(text) ==>
              Classify(text, answer).intent == if answer.Fits? then Some(answer.intent) else None
  {
    var provision, inquiry, compliance := "provision: " + rest, "inquiry: " + rest, "compliance_check: " + rest;
    assert "provision: " <= provision && "inquiry: " <= inquiry && "compliance_check: " <= compliance;
    assert inquiry[0] != provision[0] && compliance[0] != provision[0] && compliance[0] != inquiry[0];
  }

  /** The text starts like an inquiry or a compliance check. */
  predicate NamesOtherIntent(text: string) {
    "inquiry: " <= text || "compliance_check: " <= text
  }

  /** A draft is reported ready, with its own parts, exactly when it asks nothing and is not unavailable. */
  lemma DraftReports(pending: PendingMap, k: Await, draft: Draft, eventId: string)
    requires k.Dispatching?
    ensures var (after, outcome) := DispatchReturned(pending, k, draft, eventId);
            && (outcome.AsksQuestion? <==> draft.questions != [])
            && (outcome.DraftReported? && outcome.report.readyToRoute <==>
                  draft.questions == [] && draft.unavailableReason == None)
            && (outcome.DraftReported? && outcome.report.readyToRoute ==>
                  outcome.report.scope == draft.scope && outcome.report.profileId == draft.profileId
                  && outcome.report.applicationRequest == draft.applicationRequest
                  && outcome.report.unsupportedReason == None)
            && (outcome.DraftReported? && !outcome.report.readyToRoute ==>
                  outcome.report.unsupportedReason == draft.unavailableReason)
            && (outcome.DraftReported? ==> after == pending)
  {
  }

  /** The checks of a resume in their order, each with what it refuses, and the text of an accepted one by positions. */
  lemma ResumeAnswers(
    pending: PendingMap, cap: nat, actor: Actor, requestId: string, interruptId: string, answer: string)
    ensures var r := Resume(pending, cap, actor, requestId, interruptId, answer);
            var known := !actor.expired && requestId in pending;
            var named := known && pending[requestId].interruptId == interruptId;
            var owned := named && pending[requestId].actorId == actor.userId;
            var answered := owned && |answer| > 0;
            && (r == Err(SessionExpired) <==> actor.expired)
            && (r == Err(NothingPending) <==> !actor.expired && requestId !in pending)
            && (r == Err(WrongInterrupt) <==> known && pending[requestId].interruptId != interruptId)
            && (r == Err(WrongActor) <==> named && pending[requestId].actorId != actor.userId)
            && (r == Err(EmptyAnswer) <==> owned && |answer| == 0)
            && (r == Err(RoundCapReached) <==> answered && RoundOf(pending[requestId]) + 1 >= cap)
            && (r.Ok? <==> answered && RoundOf(pending[requestId]) + 1 < cap)
    ensures var r := Resume(pending, cap, actor, requestId, interruptId, answer);
            r.Ok? ==>
              var (after, k) := r.value;
              && after == pending - {requestId}
              && k.requestId == requestId && k.actorId == actor.userId
              && ContinuesWith(pending[requestId], k, answer)
  {
    var r := Resume(pending, cap, actor, requestId, interruptId, answer);
    if r.Ok? {
      var prior := TextOf(pending[requestId]);
      var text := prior + "\n\nClarification: " + answer;
      assert WithAnswer(prior, answer) == text;
      assert text[..|prior|] == prior && text[|prior|..|prior| + 17] == "\n\nClarification: ";
      assert text[|prior| + 17..] == answer;
    }
  }

  function RoundOf(p: Pending): nat {
    match p
    case IntakePending(_, _, _, request) => request.clarificationRound
    case ProvisionPending(_, _, _, round) => round
  }

  function TextOf(p: Pending): string {
    match p
    case IntakePending(_, _, _, request) => request.rawText
    case ProvisionPending(_, _, invocation, _) => invocation.rawText
  }

  /** The prior text, then the marker, then the whole answer. */
  predicate Continues(text: string, prior: string, answer: string) {
    && |prior| + 17 <= |text|
    && text[..|prior|] == prior
    && text[|prior|..|prior| + 17] == "\n\nClarification: "
    && text[|prior| + 17..] == answer
  }

  /** The call goes on in the stage of the question, one round later, with the same hint and the longer text. */
  predicate ContinuesWith(p: Pending, k: Await, answer: string) {
    match (p, k)
    case (IntakePending(_, _, hint, prior), Classifying(_, _, request, hint')) =>
      hint' == hint && request.clarificationRound == prior.clarificationRound + 1
      && Continues(request.rawText, prior.rawText, answer)
    case (ProvisionPending(_, _, prior, round), Dispatching(_, _, invocation, round')) =>
      invocation.scopeHint == prior.scopeHint && round' == round + 1
      && Continues(invocation.rawText, prior.rawText, answer)
    case _ => false
  }

  /** `org:bu` reads "aiq:it" for one tenant only: the text has a single colon. */
  lemma OnlyOneTenant(t: Tenant)
    requires t.OrgBu() == "aiq:it"
    ensures t == Tenant("aiq", "it")
  {
    var text := "aiq:it";
    assert text[|t.org|] == ':';
    assert text[3] == ':';
    assert |t.org| == 3;
    assert t.org == text[..3] == "aiq";
    assert t.bu == text[4..] == "it";
  }

  // ---------- The harness object ----------

  class PlatformOpsHarness {
    const maxClarificationRounds: nat
    var pendingIntake: PendingMap

    constructor ()
      ensures maxClarificationRounds == 2
      ensures pendingIntake == map[]
    {
      maxClarificationRounds := 2;
      pendingIntake := map[];
    }

    method BeginRun(actor: Actor, requestId: string, text: string, hint: Option<ScopeHint>)
      returns (r: Result<Await, Error>)
      ensures r == StartRun(actor, requestId, text, hint)
    {
      if actor.expired {
        return Err(SessionExpired);
      }
      return Ok(Classifying(actor.userId, requestId, IntakeRequest(text, 0), hint));
    }

    /** A rejected resume leaves the pending map alone; an accepted one pops exactly its own entry. */
    method ResumeClarification(actor: Actor, requestId: string, interruptId: string, answer: string)
      returns (r: Result<Await, Error>)
      modifies this
      ensures var spec :=
                Resume(old(pendingIntake), maxClarificationRounds, actor, requestId, interruptId, answer);
              match spec
              case Ok((after, k)) => r == Ok(k) && pendingIntake == after
              case Err(e) => r == Err(e) && pendingIntake == old(pendingIntake)
      ensures r.Ok? ==> requestId in old(pendingIntake) && ContinuesWith(old(pendingIntake)[requestId], r.value, answer)
    {
      ResumeAnswers(pendingIntake, maxClarificationRounds, actor, requestId, interruptId, answer);
      if actor.expired {
        return Err(SessionExpired);
      }
      if requestId !in pendingIntake {
        return Err(NothingPending);
      }
      var p := pendingIntake[requestId];
      if p.interruptId != interruptId {
        return Err(WrongInterrupt);
      }
      if p.actorId != actor.userId {
        return Err(WrongActor);
      }
      if answer == "" {
        return Err(EmptyAnswer);
      }
      if p.ProvisionPending? {
        if p.round + 1 >= maxClarificationRounds {
          return Err(RoundCapReached);
        }
        pendingIntake := pendingIntake - {requestId};
        var invocation := Invocation(WithAnswer(p.invocation.rawText, answer), p.invocation.scopeHint);
        return Ok(Dispatching(actor.userId, requestId, invocation, p.round + 1));
      }
      var prior := p.request;
      if prior.clarificationRound + 1 >= maxClarificationRounds {
        return Err(RoundCapReached);
      }
      pendingIntake := pendingIntake - {requestId};
      var request := IntakeRequest(WithAnswer(prior.rawText, answer), prior.clarificationRound + 1);
      return Ok(Classifying(actor.userId, requestId, request, p.scopeHint));
    }

    method AfterClassify(k: Await, answer: Classification, eventId: string) returns (outcome: Outcome)
      requires k.Classifying?
      modifies this
      ensures (pendingIntake, outcome) == ClassifyReturned(old(pendingIntake), k, answer, eventId)
    {
      var decision := ResolveRoute(Classify(k.request.rawText, answer));
      if decision.questions != [] {
        pendingIntake := pendingIntake[k.requestId := IntakePending(eventId, k.actorId, k.scopeHint, k.request)];
        return AsksQuestion(eventId, decision.questions);
      }
      if decision.route.None? || decision.route.value !in REGISTERED_ROUTES {
        return RouteResolved(decision);
      }
      if k.scopeHint.None? || !CheckTenantPolicy(k.scopeHint.value.tenant.OrgBu(), decision.intent.value) {
        return RouteResolved(decision.(readyToRoute := false, unsupportedReason := Some(TENANT_REFUSED)));
      }
      if k.request.rawText == "" {
        return Raises(InvalidInvocation);
      }
      return Suspends(Dispatching(k.actorId, k.requestId, Invocation(k.request.rawText, k.scopeHint.value), 0));
    }

    method AfterDispatch(k: Await, draft: Draft, eventId: string) returns (outcome: Outcome)
      requires k.Dispatching?
      modifies this
      ensures (pendingIntake, outcome) == DispatchReturned(old(pendingIntake), k, draft, eventId)
    {
      if draft.questions != [] {
        pendingIntake := pendingIntake[k.requestId := ProvisionPending(eventId, k.actorId, k.invocation, k.round)];
        return AsksQuestion(eventId, draft.questions);
      }
      if draft.unavailableReason.Some? {
        return DraftReported(DraftReport(false, draft.unavailableReason, None, None, None));
      }
      return DraftReported(DraftReport(true, None, draft.profileId, draft.scope, draft.applicationRequest));
    }
  }
}
