/**
 * Every interleaving of harness calls, split at their awaits. The core state is what the harness and the event
 * loop hold; the history only records what happened, and no step of the core reads it.
 */
module ClarificationRuns {
  import opened Wrappers
  import opened GatewaySchemas
  import opened Clarification

  /** The pending map and the suspended calls, each call under its own number. */
  datatype Core = Core(pending: PendingMap, calls: map<nat, Await>, nextCall: nat)

  datatype Event =
    | Start(actor: Actor, requestId: string, text: string, hint: Option<ScopeHint>)
    | Answer(actor: Actor, requestId: string, interruptId: string, answer: string)
    | ClassifierDone(call: nat, classification: Classification, eventId: string)
    | HandlerDone(call: nat, draft: Draft, eventId: string)
    | CallFails(call: nat)

  /** What a step did, for the history. */
  datatype Effect =
    | Nothing
    | Began(call: nat)
    | Accepted(call: nat, k: Await)
    | Asked(call: nat, interruptId: string, k: Await)
    | Dispatched(call: nat, k: Await)
    | Ended(call: nat)

  function CoreNext(c: Core, cap: nat, ev: Event): (Core, Effect) {
    match ev
    case Start(actor, requestId, text, hint) =>
      (match StartRun(actor, requestId, text, hint)
       case Ok(k) => (Core(c.pending, c.calls[c.nextCall := k], c.nextCall + 1), Began(c.nextCall))
       case Err(_) => (c, Nothing))
    case Answer(actor, requestId, interruptId, answer) =>
      (match Resume(c.pending, cap, actor, requestId, interruptId, answer)
       case Ok((pending, k)) => (Core(pending, c.calls[c.nextCall := k], c.nextCall + 1), Accepted(c.nextCall, k))
       case Err(_) => (c, Nothing))
    case ClassifierDone(call, classification, eventId) =>
      if call in c.calls && c.calls[call].Classifying? then
        var (pending, outcome) := ClassifyReturned(c.pending, c.calls[call], classification, eventId);
        Settle(c, call, pending, outcome)
      else (c, Nothing)
    case HandlerDone(call, draft, eventId) =>
      if call in c.calls && c.calls[call].Dispatching? then
        var (pending, outcome) := DispatchReturned(c.pending, c.calls[call], draft, eventId);
        Settle(c, call, pending, outcome)
      else (c, Nothing)
    case CallFails(call) =>
      if call in c.calls then (c.(calls := c.calls - {call}), Ended(call)) else (c, Nothing)
  }

  /** A segment has run to its end: the call suspends again or is over. */
  function Settle(c: Core, call: nat, pending: PendingMap, outcome: Outcome): (Core, Effect)
    requires call in c.calls
  {
    match outcome
    case Suspends(k) => (Core(pending, c.calls[call := k], c.nextCall), Dispatched(call, k))
    case AsksQuestion(id, _) => (Core(pending, c.calls - {call}, c.nextCall), Asked(call, id, c.calls[call]))
    case _ => (Core(pending, c.calls - {call}, c.nextCall), Ended(call))
  }

  // ---------- History ----------

  /** One dialogue: the text and hint of its start_run, the accepted answers so far, the questions asked so far. */
  datatype Chain = Chain(text: string, hint: Option<ScopeHint>, answers: seq<string>, asked: nat)

  datatype Ticket = Ticket(requestId: string, actorId: string)

  datatype History = History(
    chains: map<nat, Chain>,
    chainOfCall: map<nat, nat>,
    chainOfPending: map<string, nat>,
    issued: map<string, Ticket>,
    redeemed: set<string>)

  function Lookup<K(==)>(m: map<K, nat>, key: K): nat {
    if key in m then m[key] else 0
  }

  function ChainAt(h: History, chain: nat): Chain {
    if chain in h.chains then h.chains[chain] else Chain("", None, [], 0)
  }

  function HistoryNext(h: History, ev: Event, effect: Effect): History {
    match effect
    case Nothing => h
    case Began(call) =>
      if ev.Start? then
        h.(chains := h.chains[call := Chain(ev.text, ev.hint, [], 0)], chainOfCall := h.chainOfCall[call := call])
      else h
    case Accepted(call, k) =>
      if ev.Answer? then
        var chain := Lookup(h.chainOfPending, ev.requestId);
        var longer := ChainAt(h, chain).(answers := ChainAt(h, chain).answers + [ev.answer]);
        h.(chains := h.chains[chain := longer],
           chainOfCall := h.chainOfCall[call := chain],
           chainOfPending := h.chainOfPending - {ev.requestId},
           redeemed := h.redeemed + {ev.interruptId})
      else h
    case Asked(call, id, k) =>
      var chain := Lookup(h.chainOfCall, call);
      h.(chains := h.chains[chain := ChainAt(h, chain).(asked := ChainAt(h, chain).asked + 1)],
         chainOfCall := h.chainOfCall - {call},
         chainOfPending := h.chainOfPending[k.requestId := chain],
         issued := h.issued[id := Ticket(k.requestId, k.actorId)])
    case Dispatched(_, _) => h
    case Ended(call) => h.(chainOfCall := h.chainOfCall - {call})
  }

  datatype State = State(core: Core, history: History)

  const INITIAL := State(Core(map[], map[], 0), History(map[], map[], map[], map[], {}))

  function Next(s: State, cap: nat, ev: Event): State {
    var (core, effect) := CoreNext(s.core, cap, ev);
    State(core, HistoryNext(s.history, ev, effect))
  }

  /** Generated ids are fresh: a question never reuses the id of an earlier one. */
  predicate FreshId(s: State, ev: Event) {
    match ev
    case ClassifierDone(_, _, eventId) => eventId !in s.history.issued
    case HandlerDone(_, _, eventId) => eventId !in s.history.issued
    case _ => true
  }

  ghost predicate Step(ss: seq<State>, events: seq<Event>, cap: nat, n: nat)
    requires n < |events| && |ss| == |events| + 1
  {
    FreshId(ss[n], events[n]) && ss[n + 1] == Next(ss[n], cap, events[n])
  }

  ghost predicate IsRun(ss: seq<State>, events: seq<Event>, cap: nat) {
    && |ss| == |events| + 1
    && ss[0] == INITIAL
    && forall n {:trigger Step(ss, events, cap, n)} :: 0 <= n < |events| ==> Step(ss, events, cap, n)
  }

  // ---------- The invariant ----------

  /** The original text followed by each accepted answer, in order. */
  function Compose(text: string, answers: seq<string>): string {
    if answers == [] then text
    else Compose(text, answers[..|answers| - 1]) + "\n\nClarification: " + answers[|answers| - 1]
  }

  /** Answers a chain can still have given before the round `cap` stops one of its two stages. */
  function Rounds(cap: nat): nat {
    if cap == 0 then 0 else cap - 1
  }

  predicate IntakeFits(chain: Chain, request: IntakeRequest, hint: Option<ScopeHint>, cap: nat) {
    && request.rawText == Compose(chain.text, chain.answers)
    && hint == chain.hint
    && request.clarificationRound == |chain.answers| <= Rounds(cap)
  }

  predicate ProvisionFits(chain: Chain, invocation: Invocation, round: nat, cap: nat) {
    && invocation.rawText == Compose(chain.text, chain.answers)
    && chain.hint == Some(invocation.scopeHint)
    && invocation.scopeHint.tenant == Tenant("aiq", "it")
    && !NamesOtherIntent(chain.text)
    && round <= Rounds(cap) && |chain.answers| <= Rounds(cap) + round
  }

  predicate CallFits(chain: Chain, k: Await, cap: nat) {
    && chain.asked == |chain.answers|
    && match k
       case Classifying(_, _, request, hint) => IntakeFits(chain, request, hint, cap)
       case Dispatching(_, _, invocation, round) => ProvisionFits(chain, invocation, round, cap)
  }

  predicate PendingFits(chain: Chain, p: Pending, cap: nat) {
    && chain.asked == |chain.answers| + 1
    && match p
       case IntakePending(_, _, hint, request) => IntakeFits(chain, request, hint, cap)
       case ProvisionPending(_, _, invocation, round) => ProvisionFits(chain, invocation, round, cap)
  }

  ghost predicate KeysOk(s: State) {
    && s.history.chainOfCall.Keys == s.core.calls.Keys
    && s.history.chainOfPending.Keys == s.core.pending.Keys
    && (forall t :: t in s.core.calls ==> t < s.core.nextCall && s.history.chainOfCall[t] in s.history.chains)
    && (forall r :: r in s.core.pending ==> s.history.chainOfPending[r] in s.history.chains)
    && (forall chain :: chain in s.history.chains ==> chain < s.core.nextCall)
  }

  /** Every suspended call and every pending entry fits the chain it carries. */
  ghost predicate FitsOk(s: State, cap: nat)
    requires KeysOk(s)
  {
    && (forall t :: t in s.core.calls ==>
          CallFits(s.history.chains[s.history.chainOfCall[t]], s.core.calls[t], cap))
    && (forall r :: r in s.core.pending ==>
          PendingFits(s.history.chains[s.history.chainOfPending[r]], s.core.pending[r], cap))
  }

  /** No two of them carry the same chain. */
  ghost predicate OneCarrier(calls: map<nat, nat>, pendings: map<string, nat>) {
    && (forall t, u :: t in calls && u in calls && t != u ==> calls[t] != calls[u])
    && (forall q, r :: q in pendings && r in pendings && q != r ==> pendings[q] != pendings[r])
    && (forall t, r :: t in calls && r in pendings ==> calls[t] != pendings[r])
  }

  ghost predicate CarriersOk(s: State, cap: nat) {
    KeysOk(s) && FitsOk(s, cap) && OneCarrier(s.history.chainOfCall, s.history.chainOfPending)
  }

  /** Pending ids were issued to their request and actor, and are not redeemed. */
  ghost predicate TicketsOk(s: State) {
    var (c, h) := (s.core, s.history);
    && (forall r :: r in c.pending ==>
          var p := c.pending[r];
          p.interruptId in h.issued && h.issued[p.interruptId] == Ticket(r, p.actorId)
          && p.interruptId !in h.redeemed)
    && h.redeemed <= h.issued.Keys
  }

  ghost predicate BoundsOk(s: State, cap: nat) {
    forall chain :: chain in s.history.chains ==>
      && |s.history.chains[chain].answers| <= 2 * Rounds(cap)
      && s.history.chains[chain].asked <= 2 * Rounds(cap) + 1
  }

  ghost predicate Inv(s: State, cap: nat) {
    CarriersOk(s, cap) && TicketsOk(s) && BoundsOk(s, cap)
  }

  lemma CarrierEnds(calls: map<nat, nat>, pendings: map<string, nat>, t: nat)
    requires OneCarrier(calls, pendings)
    ensures OneCarrier(calls - {t}, pendings)
  {
    var fewer := calls - {t};
    assert forall u :: u in fewer ==> u in calls && fewer[u] == calls[u];
  }

  lemma CarrierAsks(calls: map<nat, nat>, pendings: map<string, nat>, t: nat, r: string)
    requires OneCarrier(calls, pendings) && t in calls
    ensures OneCarrier(calls - {t}, pendings[r := calls[t]])
  {
    var fewer := calls - {t};
    assert forall u :: u in fewer ==> u in calls && u != t && fewer[u] == calls[u];
  }

  lemma StartKeepsInv(s: State, cap: nat, ev: Event)
    requires Inv(s, cap) && ev.Start?
    ensures Inv(Next(s, cap, ev), cap)
  {
    assert Compose(ev.text, []) == ev.text;
  }

  // Each move is treated on its own, apart from the branches that lead to it.

  function End(s: State, t: nat): State {
    State(s.core.(calls := s.core.calls - {t}), s.history.(chainOfCall := s.history.chainOfCall - {t}))
  }

  lemma EndKeepsInv(s: State, cap: nat, t: nat)
    requires Inv(s, cap) && t in s.core.calls
    ensures Inv(End(s, t), cap)
  {
    CarrierEnds(s.history.chainOfCall, s.history.chainOfPending, t);
  }

  function Ask(s: State, t: nat, r: string, p: Pending): State {
    var chain := Lookup(s.history.chainOfCall, t);
    State(
      Core(s.core.pending[r := p], s.core.calls - {t}, s.core.nextCall),
      s.history.(
        chains := s.history.chains[chain := ChainAt(s.history, chain).(asked := ChainAt(s.history, chain).asked + 1)],
        chainOfCall := s.history.chainOfCall - {t},
        chainOfPending := s.history.chainOfPending[r := chain],
        issued := s.history.issued[p.interruptId := Ticket(r, p.actorId)]))
  }

  lemma AskKeepsCarriers(s: State, cap: nat, t: nat, r: string, p: Pending)
    requires CarriersOk(s, cap) && t in s.core.calls
    requires var chain := s.history.chains[s.history.chainOfCall[t]];
             PendingFits(chain.(asked := chain.asked + 1), p, cap)
    ensures CarriersOk(Ask(s, t, r, p), cap)
  {
    CarrierAsks(s.history.chainOfCall, s.history.chainOfPending, t, r);
  }

  lemma AskKeepsInv(s: State, cap: nat, t: nat, r: string, p: Pending)
    requires Inv(s, cap) && t in s.core.calls && p.interruptId !in s.history.issued
    requires var chain := s.history.chains[s.history.chainOfCall[t]];
             PendingFits(chain.(asked := chain.asked + 1), p, cap)
    ensures Inv(Ask(s, t, r, p), cap)
  {
    AskKeepsCarriers(s, cap, t, r, p);
  }

  function Dispatch(s: State, t: nat, k: Await): State {
    s.(core := s.core.(calls := s.core.calls[t := k]))
  }

  lemma DispatchKeepsInv(s: State, cap: nat, t: nat, k: Await)
    requires Inv(s, cap) && t in s.core.calls && k.Dispatching?
    requires CallFits(s.history.chains[s.history.chainOfCall[t]], k, cap)
    ensures Inv(Dispatch(s, t, k), cap)
  {
  }

  function Redeem(s: State, r: string, k: Await, interruptId: string, answer: string): State {
    var chain := Lookup(s.history.chainOfPending, r);
    var longer := ChainAt(s.history, chain).(answers := ChainAt(s.history, chain).answers + [answer]);
    var t := s.core.nextCall;
    State(
      Core(s.core.pending - {r}, s.core.calls[t := k], t + 1),
      s.history.(
        chains := s.history.chains[chain := longer],
        chainOfCall := s.history.chainOfCall[t := chain],
        chainOfPending := s.history.chainOfPending - {r},
        redeemed := s.history.redeemed + {interruptId}))
  }

  lemma RedeemKeepsKeys(s: State, r: string, k: Await, interruptId: string, answer: string)
    requires KeysOk(s) && r in s.core.pending
    ensures KeysOk(Redeem(s, r, k, interruptId, answer))
  {
  }

  lemma RedeemKeepsCarriers(s: State, cap: nat, r: string, k: Await, interruptId: string, answer: string)
    requires CarriersOk(s, cap) && r in s.core.pending
    requires var chain := s.history.chains[s.history.chainOfPending[r]];
             CallFits(chain.(answers := chain.answers + [answer]), k, cap)
    ensures CarriersOk(Redeem(s, r, k, interruptId, answer), cap)
  {
    RedeemKeepsKeys(s, r, k, interruptId, answer);
  }

  lemma RedeemKeepsInv(s: State, cap: nat, r: string, k: Await, answer: string)
    requires Inv(s, cap) && r in s.core.pending
    requires var chain := s.history.chains[s.history.chainOfPending[r]];
             CallFits(chain.(answers := chain.answers + [answer]), k, cap)
    ensures Inv(Redeem(s, r, k, s.core.pending[r].interruptId, answer), cap)
  {
    RedeemKeepsCarriers(s, cap, r, k, s.core.pending[r].interruptId, answer);
  }

  // ---------- Steps are moves ----------

  predicate Accepts(s: State, cap: nat, ev: Event) {
    ev.Answer? && Resume(s.core.pending, cap, ev.actor, ev.requestId, ev.interruptId, ev.answer).Ok?
  }

  lemma AcceptedAnswerRedeems(s: State, cap: nat, ev: Event)
    requires Accepts(s, cap, ev)
    ensures var p := s.core.pending[ev.requestId];
            var k := Resume(s.core.pending, cap, ev.actor, ev.requestId, ev.interruptId, ev.answer).value.1;
            && ev.requestId in s.core.pending
            && p.interruptId == ev.interruptId && p.actorId == ev.actor.userId
            && !ev.actor.expired && ev.answer != ""
            && Next(s, cap, ev) == Redeem(s, ev.requestId, k, p.interruptId, ev.answer)
  {
  }

  lemma RedeemedCallFits(s: State, cap: nat, ev: Event)
    requires CarriersOk(s, cap) && Accepts(s, cap, ev)
    ensures var chain := s.history.chains[s.history.chainOfPending[ev.requestId]];
            var k := Resume(s.core.pending, cap, ev.actor, ev.requestId, ev.interruptId, ev.answer).value.1;
            CallFits(chain.(answers := chain.answers + [ev.answer]), k, cap)
  {
    var chain := s.history.chains[s.history.chainOfPending[ev.requestId]];
    assert PendingFits(chain, s.core.pending[ev.requestId], cap);
  }

  lemma AnswerKeepsInv(s: State, cap: nat, ev: Event)
    requires Inv(s, cap) && ev.Answer?
    ensures Inv(Next(s, cap, ev), cap)
  {
    if Accepts(s, cap, ev) {
      var k := Resume(s.core.pending, cap, ev.actor, ev.requestId, ev.interruptId, ev.answer).value.1;
      AcceptedAnswerRedeems(s, cap, ev);
      RedeemedCallFits(s, cap, ev);
      RedeemKeepsInv(s, cap, ev.requestId, k, ev.answer);
    } else {
      RejectedAnswerChangesNothing(s, cap, ev);
    }
  }

  /** A rejected resume leaves the pending map, and everything else, as it was. */
  lemma RejectedAnswerChangesNothing(s: State, cap: nat, ev: Event)
    requires ev.Answer? && !Accepts(s, cap, ev)
    ensures Next(s, cap, ev) == s
  {
  }

  /** What a finished segment leads to, given what the call came back with. */
  function Settled(s: State, t: nat, pending: PendingMap, outcome: Outcome): State
    requires t in s.core.calls
  {
    var k := s.core.calls[t];
    match outcome
    case Suspends(next) => Dispatch(s, t, next)
    case AsksQuestion(_, _) =>
      if k.requestId in pending then Ask(s, t, k.requestId, pending[k.requestId]) else End(s, t)
    case _ => End(s, t)
  }

  lemma ClassifierSettles(s: State, cap: nat, ev: Event)
    requires ev.ClassifierDone? && ev.call in s.core.calls && s.core.calls[ev.call].Classifying?
    ensures var (pending, outcome) :=
              ClassifyReturned(s.core.pending, s.core.calls[ev.call], ev.classification, ev.eventId);
            Next(s, cap, ev) == Settled(s, ev.call, pending, outcome)
  {
  }

  lemma HandlerSettles(s: State, cap: nat, ev: Event)
    requires ev.HandlerDone? && ev.call in s.core.calls && s.core.calls[ev.call].Dispatching?
    ensures var (pending, outcome) := DispatchReturned(s.core.pending, s.core.calls[ev.call], ev.draft, ev.eventId);
            Next(s, cap, ev) == Settled(s, ev.call, pending, outcome)
  {
  }

  /** What comes out of a segment continues the chain that went in. */
  ghost predicate OutcomeFits(
    chain: Chain, k: Await, pending: PendingMap, outcome: Outcome, eventId: string, cap: nat)
  {
    match outcome
    case Suspends(next) => next.Dispatching? && CallFits(chain, next, cap)
    case AsksQuestion(_, _) =>
      && k.requestId in pending
      && pending[k.requestId].interruptId == eventId
      && PendingFits(chain.(asked := chain.asked + 1), pending[k.requestId], cap)
    case _ => true
  }

  lemma ClassifierOutcomeFits(
    chain: Chain, before: PendingMap, k: Await, classification: Classification, eventId: string, cap: nat)
    requires k.Classifying? && CallFits(chain, k, cap)
    ensures var (pending, outcome) := ClassifyReturned(before, k, classification, eventId);
            OutcomeFits(chain, k, pending, outcome, eventId, cap)
  {
    if ClassifyReturned(before, k, classification, eventId).1.Suspends? {
      OnlyAuthorizedTenantsReachTheHandler(before, k, classification, eventId);
      ComposedStartsWith(chain.text, chain.answers);
      assert "inquiry: "[0] != "provision: "[0] && "compliance_check: "[0] != "provision: "[0];
    }
  }

  lemma {:induction false} ComposedStartsWith(text: string, answers: seq<string>)
    ensures text <= Compose(text, answers)
  {
    if answers != [] {
      ComposedStartsWith(text, answers[..|answers| - 1]);
    }
  }

  lemma SettledKeepsInv(s: State, cap: nat, t: nat, pending: PendingMap, outcome: Outcome, eventId: string)
    requires Inv(s, cap) && t in s.core.calls && eventId !in s.history.issued
    requires OutcomeFits(s.history.chains[s.history.chainOfCall[t]], s.core.calls[t], pending, outcome, eventId, cap)
    ensures Inv(Settled(s, t, pending, outcome), cap)
  {
    match outcome
    case Suspends(next) => DispatchKeepsInv(s, cap, t, next);
    case AsksQuestion(_, _) =>
      AskKeepsInv(s, cap, t, s.core.calls[t].requestId, pending[s.core.calls[t].requestId]);
    case _ => EndKeepsInv(s, cap, t);
  }

  lemma ClassifierKeepsInv(s: State, cap: nat, ev: Event)
    requires Inv(s, cap) && ev.ClassifierDone? && FreshId(s, ev)
    ensures Inv(Next(s, cap, ev), cap)
  {
    if ev.call in s.core.calls && s.core.calls[ev.call].Classifying? {
      var k, chain := s.core.calls[ev.call], s.history.chains[s.history.chainOfCall[ev.call]];
      assert CallFits(chain, k, cap);
      ClassifierOutcomeFits(chain, s.core.pending, k, ev.classification, ev.eventId, cap);
      ClassifierSettles(s, cap, ev);
      var (pending, outcome) := ClassifyReturned(s.core.pending, k, ev.classification, ev.eventId);
      SettledKeepsInv(s, cap, ev.call, pending, outcome, ev.eventId);
    }
  }

  lemma HandlerKeepsInv(s: State, cap: nat, ev: Event)
    requires Inv(s, cap) && ev.HandlerDone? && FreshId(s, ev)
    ensures Inv(Next(s, cap, ev), cap)
  {
    if ev.call in s.core.calls && s.core.calls[ev.call].Dispatching? {
      var k, chain := s.core.calls[ev.call], s.history.chains[s.history.chainOfCall[ev.call]];
      assert CallFits(chain, k, cap);
      HandlerSettles(s, cap, ev);
      var (pending, outcome) := DispatchReturned(s.core.pending, k, ev.draft, ev.eventId);
      SettledKeepsInv(s, cap, ev.call, pending, outcome, ev.eventId);
    }
  }

  lemma StepKeepsInv(s: State, cap: nat, ev: Event)
    requires Inv(s, cap) && FreshId(s, ev)
    ensures Inv(Next(s, cap, ev), cap)
  {
    match ev
    case Start(_, _, _, _) => StartKeepsInv(s, cap, ev);
    case Answer(_, _, _, _) => AnswerKeepsInv(s, cap, ev);
    case ClassifierDone(_, _, _) => ClassifierKeepsInv(s, cap, ev);
    case HandlerDone(_, _, _) => HandlerKeepsInv(s, cap, ev);
    case CallFails(call) =>
      if call in s.core.calls {
        EndKeepsInv(s, cap, call);
        assert Next(s, cap, ev) == End(s, call);
      }
  }

  lemma {:induction false} InvHolds(ss: seq<State>, events: seq<Event>, cap: nat, n: nat)
    requires IsRun(ss, events, cap) && n <= |events|
    ensures Inv(ss[n], cap)
  {
    if n > 0 {
      InvHolds(ss, events, cap, n - 1);
      assert Step(ss, events, cap, n - 1);
      StepKeepsInv(ss[n - 1], cap, events[n - 1]);
    }
  }

  // ---------- At most one resume per interrupt ----------

  /** Step `ev` asks the question with this interrupt id, on this request and of this actor. */
  predicate Asks(s: State, cap: nat, ev: Event, interruptId: string, ticket: Ticket) {
    match CoreNext(s.core, cap, ev).1
    case Asked(_, id, k) => id == interruptId && ticket == Ticket(k.requestId, k.actorId)
    case _ => false
  }

  lemma StepGrows(s: State, cap: nat, ev: Event)
    requires FreshId(s, ev)
    ensures s.history.redeemed <= Next(s, cap, ev).history.redeemed
    ensures Accepts(s, cap, ev) ==> ev.interruptId in Next(s, cap, ev).history.redeemed
    ensures forall id :: id in Next(s, cap, ev).history.issued ==>
              || (id in s.history.issued && s.history.issued[id] == Next(s, cap, ev).history.issued[id])
              || Asks(s, cap, ev, id, Next(s, cap, ev).history.issued[id])
  {
  }

  lemma {:induction false} RedeemedStays(ss: seq<State>, events: seq<Event>, cap: nat, m: nat, n: nat)
    requires IsRun(ss, events, cap) && m <= n <= |events|
    ensures ss[m].history.redeemed <= ss[n].history.redeemed
    decreases n
  {
    if m < n {
      assert Step(ss, events, cap, n - 1);
      RedeemedStays(ss, events, cap, m, n - 1);
      StepGrows(ss[n - 1], cap, events[n - 1]);
    }
  }

  /** Under every interleaving, an interrupt id is accepted by at most one resume. */
  lemma AtMostOneResume(ss: seq<State>, events: seq<Event>, cap: nat, i: nat, j: nat)
    requires IsRun(ss, events, cap) && i < j < |events|
    requires Accepts(ss[i], cap, events[i]) && Accepts(ss[j], cap, events[j])
    ensures events[i].interruptId != events[j].interruptId
  {
    assert Step(ss, events, cap, i);
    StepGrows(ss[i], cap, events[i]);
    RedeemedStays(ss, events, cap, i + 1, j);
    InvHolds(ss, events, cap, j);
    AcceptedAnswerRedeems(ss[j], cap, events[j]);
  }

  lemma {:induction false} TicketOrigin(ss: seq<State>, events: seq<Event>, cap: nat, n: nat, id: string)
    returns (i: nat)
    requires IsRun(ss, events, cap) && n <= |events| && id in ss[n].history.issued
    ensures i < n && Asks(ss[i], cap, events[i], id, ss[n].history.issued[id])
    decreases n
  {
    assert Step(ss, events, cap, n - 1);
    StepGrows(ss[n - 1], cap, events[n - 1]);
    if id in ss[n - 1].history.issued && ss[n - 1].history.issued[id] == ss[n].history.issued[id] {
      i := TicketOrigin(ss, events, cap, n - 1, id);
    } else {
      i := n - 1;
    }
  }

  /** An accepted resume answers a question asked earlier, on the same request and by the actor it was asked of. */
  lemma ResumesAnswerTheirQuestion(ss: seq<State>, events: seq<Event>, cap: nat, j: nat) returns (i: nat)
    requires IsRun(ss, events, cap) && j < |events| && Accepts(ss[j], cap, events[j])
    ensures i < j && !events[j].actor.expired && events[j].answer != ""
    ensures Asks(
              ss[i], cap, events[i], events[j].interruptId, Ticket(events[j].requestId, events[j].actor.userId))
  {
    InvHolds(ss, events, cap, j);
    AcceptedAnswerRedeems(ss[j], cap, events[j]);
    i := TicketOrigin(ss, events, cap, j, events[j].interruptId);
  }

  // ---------- Bounded dialogues ----------

  /** The answers accepted for a chain among the first n events, in order. */
  ghost function AnswersOf(ss: seq<State>, events: seq<Event>, cap: nat, n: nat, chain: nat): seq<string>
    requires n <= |events| && |ss| == |events| + 1
  {
    if n == 0 then []
    else
      AnswersOf(ss, events, cap, n - 1, chain)
      + (if Accepts(ss[n - 1], cap, events[n - 1])
            && Lookup(ss[n - 1].history.chainOfPending, events[n - 1].requestId) == chain
         then [events[n - 1].answer] else [])
  }

  predicate AsksFor(s: State, cap: nat, ev: Event, chain: nat) {
    match CoreNext(s.core, cap, ev).1
    case Asked(call, _, _) => Lookup(s.history.chainOfCall, call) == chain
    case _ => false
  }

  /** The questions asked for a chain among the first n events. */
  ghost function QuestionsOf(ss: seq<State>, events: seq<Event>, cap: nat, n: nat, chain: nat): nat
    requires n <= |events| && |ss| == |events| + 1
  {
    if n == 0 then 0
    else
      QuestionsOf(ss, events, cap, n - 1, chain) + (if AsksFor(ss[n - 1], cap, events[n - 1], chain) then 1 else 0)
  }

  lemma StepExtendsChain(s: State, cap: nat, ev: Event, chain: nat)
    requires Inv(s, cap)
    ensures var (before, after) := (ChainAt(s.history, chain), ChainAt(Next(s, cap, ev).history, chain));
            && after.answers ==
               before.answers
               + (if Accepts(s, cap, ev) && Lookup(s.history.chainOfPending, ev.requestId) == chain
                  then [ev.answer] else [])
            && after.asked == before.asked + (if AsksFor(s, cap, ev, chain) then 1 else 0)
  {
  }

  lemma {:induction false} ChainsCountTheRun(ss: seq<State>, events: seq<Event>, cap: nat, n: nat, chain: nat)
    requires IsRun(ss, events, cap) && n <= |events|
    ensures AnswersOf(ss, events, cap, n, chain) == ChainAt(ss[n].history, chain).answers
    ensures QuestionsOf(ss, events, cap, n, chain) == ChainAt(ss[n].history, chain).asked
  {
    if n > 0 {
      ChainsCountTheRun(ss, events, cap, n - 1, chain);
      InvHolds(ss, events, cap, n - 1);
      assert Step(ss, events, cap, n - 1);
      StepExtendsChain(ss[n - 1], cap, events[n - 1], chain);
    }
  }

  /** From one start_run, with round cap N, at most 2(N - 1) resumes are accepted and 2(N - 1) + 1 questions asked. */
  lemma DialoguesAreBounded(ss: seq<State>, events: seq<Event>, cap: nat, n: nat, chain: nat)
    requires IsRun(ss, events, cap) && n <= |events|
    ensures |AnswersOf(ss, events, cap, n, chain)| <= 2 * Rounds(cap)
    ensures QuestionsOf(ss, events, cap, n, chain) <= 2 * Rounds(cap) + 1
    ensures cap == 2 ==>
              |AnswersOf(ss, events, cap, n, chain)| <= 2 && QuestionsOf(ss, events, cap, n, chain) <= 3
  {
    ChainsCountTheRun(ss, events, cap, n, chain);
    InvHolds(ss, events, cap, n);
  }

  // ---------- Provenance of handler calls ----------

  /** Every chain began with an accepted start_run, whose text and hint it keeps. */
  lemma {:induction false} ChainOrigin(ss: seq<State>, events: seq<Event>, cap: nat, n: nat, chain: nat)
    returns (i: nat)
    requires IsRun(ss, events, cap) && n <= |events| && chain in ss[n].history.chains
    ensures i < n && events[i].Start? && !events[i].actor.expired && ss[i].core.nextCall == chain
    ensures ss[n].history.chains[chain].text == events[i].text && ss[n].history.chains[chain].hint == events[i].hint
    decreases n
  {
    assert Step(ss, events, cap, n - 1);
    InvHolds(ss, events, cap, n - 1);
    StepKeepsChainOrigins(ss[n - 1], cap, events[n - 1], chain);
    if chain in ss[n - 1].history.chains {
      i := ChainOrigin(ss, events, cap, n - 1, chain);
    } else {
      i := n - 1;
    }
  }

  lemma StepKeepsChainOrigins(s: State, cap: nat, ev: Event, chain: nat)
    requires KeysOk(s) && chain in Next(s, cap, ev).history.chains
    ensures var after := Next(s, cap, ev).history.chains[chain];
            if chain in s.history.chains
            then after.text == s.history.chains[chain].text && after.hint == s.history.chains[chain].hint
            else ev.Start? && !ev.actor.expired && s.core.nextCall == chain && after == Chain(ev.text, ev.hint, [], 0)
  {
  }

  /**
   * Whenever a call is in the provision handler, its hint is the one of the start_run that began its chain, the
   * hint's tenant is allowed to provision, and its text is the original text followed by each answer accepted
   * for the chain, in order.
   */
  lemma HandlerCallsHaveProvenance(ss: seq<State>, events: seq<Event>, cap: nat, n: nat, call: nat)
    returns (start: nat, chain: nat)
    requires IsRun(ss, events, cap) && n <= |events|
    requires call in ss[n].core.calls && ss[n].core.calls[call].Dispatching?
    ensures start < n && events[start].Start? && ss[start].core.nextCall == chain
    ensures var invocation := ss[n].core.calls[call].invocation;
            && events[start].hint == Some(invocation.scopeHint)
            && CheckTenantPolicy(invocation.scopeHint.tenant.OrgBu(), Provision)
            && invocation.rawText == Compose(events[start].text, AnswersOf(ss, events, cap, n, chain))
            && !("inquiry: " <= events[start].text) && !("compliance_check: " <= events[start].text)
  {
    InvHolds(ss, events, cap, n);
    chain := ss[n].history.chainOfCall[call];
    assert CallFits(ss[n].history.chains[chain], ss[n].core.calls[call], cap);
    start := ChainOrigin(ss, events, cap, n, chain);
    ChainsCountTheRun(ss, events, cap, n, chain);
    assert Tenant("aiq", "it").OrgBu() == "aiq:it";
  }

  // ---------- The bound is reached ----------

  /** Every id issued so far is at most this long. */
  ghost predicate IdsWithin(s: State, size: nat) {
    forall id :: id in s.history.issued ==> |id| <= size
  }

  /** The only dialogue is suspended in call t. */
  ghost predicate InCall(s: State, t: nat, k: Await, chain: Chain, size: nat) {
    && s.core.pending == map[] && t in s.core.calls && s.core.calls[t] == k && s.core.nextCall == t + 1
    && 0 in s.history.chains && s.history.chains[0] == chain
    && t in s.history.chainOfCall && s.history.chainOfCall[t] == 0
    && IdsWithin(s, size)
  }

  /** The only dialogue waits for the answer to p on request "r". */
  ghost predicate InQuestion(s: State, p: Pending, next: nat, chain: Chain, size: nat) {
    && s.core.pending == map["r" := p] && s.core.nextCall == next
    && 0 in s.history.chains && s.history.chains[0] == chain
    && "r" in s.history.chainOfPending && s.history.chainOfPending["r"] == 0
    && IdsWithin(s, size)
  }

  lemma Extend(ss: seq<State>, events: seq<Event>, cap: nat, ev: Event)
    returns (longer: seq<State>, more: seq<Event>)
    requires IsRun(ss, events, cap) && FreshId(ss[|events|], ev)
    ensures IsRun(longer, more, cap) && longer[|more|] == Next(ss[|events|], cap, ev)
  {
    longer, more := ss + [Next(ss[|events|], cap, ev)], events + [ev];
    forall n | 0 <= n < |more| ensures Step(longer, more, cap, n) {
      if n < |events| {
        assert Step(ss, events, cap, n);
      }
    }
  }

  /** An id longer than every one issued so far. */
  function LongerId(size: nat): (id: string)
    ensures |id| == size + 1
  {
    seq(size + 1, i => 'i')
  }

  lemma AskedFromCall(s: State, t: nat, k: Await, chain: Chain, size: nat, p: Pending)
    requires InCall(s, t, k, chain, size) && |p.interruptId| <= size + 1
    ensures InQuestion(Ask(s, t, "r", p), p, t + 1, chain.(asked := chain.asked + 1), size + 1)
  {
  }

  lemma IntakeAsks(ss: seq<State>, events: seq<Event>, cap: nat, t: nat, k: Await, chain: Chain, size: nat)
    returns (longer: seq<State>, more: seq<Event>)
    requires IsRun(ss, events, cap) && InCall(ss[|events|], t, k, chain, size)
    requires k.Classifying? && k.requestId == "r" && MatchPrefix(k.request.rawText).None?
    ensures IsRun(longer, more, cap)
    ensures InQuestion(
              longer[|more|], IntakePending(LongerId(size), k.actorId, k.scopeHint, k.request), t + 1,
              chain.(asked := chain.asked + 1), size + 1)
  {
    var s, ev := ss[|events|], ClassifierDone(t, Unclear("q"), LongerId(size));
    var p := IntakePending(LongerId(size), k.actorId, k.scopeHint, k.request);
    ClassifierSettles(s, cap, ev);
    assert Next(s, cap, ev) == Ask(s, t, "r", p);
    AskedFromCall(s, t, k, chain, size, p);
    longer, more := Extend(ss, events, cap, ev);
  }

  lemma HandlerAsks(ss: seq<State>, events: seq<Event>, cap: nat, t: nat, k: Await, chain: Chain, size: nat)
    returns (longer: seq<State>, more: seq<Event>)
    requires IsRun(ss, events, cap) && InCall(ss[|events|], t, k, chain, size)
    requires k.Dispatching? && k.requestId == "r"
    ensures IsRun(longer, more, cap)
    ensures InQuestion(
              longer[|more|], ProvisionPending(LongerId(size), k.actorId, k.invocation, k.round), t + 1,
              chain.(asked := chain.asked + 1), size + 1)
  {
    var s, ev := ss[|events|], HandlerDone(t, Draft(None, None, None, ["q"], None), LongerId(size));
    var p := ProvisionPending(LongerId(size), k.actorId, k.invocation, k.round);
    HandlerSettles(s, cap, ev);
    assert Next(s, cap, ev) == Ask(s, t, "r", p);
    AskedFromCall(s, t, k, chain, size, p);
    longer, more := Extend(ss, events, cap, ev);
  }

  /** The call that an accepted answer to p resumes. */
  function Resumed(p: Pending, answer: string): Await {
    match p
    case IntakePending(_, actorId, hint, request) =>
      Classifying(
        actorId, "r", IntakeRequest(WithAnswer(request.rawText, answer), request.clarificationRound + 1), hint)
    case ProvisionPending(_, actorId, invocation, round) =>
      Dispatching(
        actorId, "r", Invocation(WithAnswer(invocation.rawText, answer), invocation.scopeHint), round + 1)
  }

  lemma AnswerResumes(pending: PendingMap, cap: nat, p: Pending, answer: string)
    requires pending == map["r" := p] && answer != "" && RoundOf(p) < Rounds(cap)
    ensures Resume(pending, cap, Actor(p.actorId, false), "r", p.interruptId, answer)
            == Ok((map[], Resumed(p, answer)))
  {
    assert pending - {"r"} == map[];
  }

  lemma ResumedFromQuestion(s: State, p: Pending, next: nat, chain: Chain, size: nat, answer: string)
    requires InQuestion(s, p, next, chain, size)
    ensures InCall(
              Redeem(s, "r", Resumed(p, answer), p.interruptId, answer), next, Resumed(p, answer),
              chain.(answers := chain.answers + [answer]), size)
  {
  }

  lemma AnswerAccepted(
    ss: seq<State>, events: seq<Event>, cap: nat, p: Pending, next: nat, chain: Chain, size: nat, answer: string)
    returns (longer: seq<State>, more: seq<Event>)
    requires IsRun(ss, events, cap) && InQuestion(ss[|events|], p, next, chain, size)
    requires answer != "" && RoundOf(p) < Rounds(cap)
    ensures IsRun(longer, more, cap)
    ensures InCall(longer[|more|], next, Resumed(p, answer), chain.(answers := chain.answers + [answer]), size)
  {
    var s, ev := ss[|events|], Answer(Actor(p.actorId, false), "r", p.interruptId, answer);
    AnswerResumes(s.core.pending, cap, p, answer);
    AcceptedAnswerRedeems(s, cap, ev);
    ResumedFromQuestion(s, p, next, chain, size, answer);
    longer, more := Extend(ss, events, cap, ev);
  }

  /** The call that a request classified as provisioning continues as. */
  function Routed(k: Await): Await
    requires k.Classifying? && k.scopeHint.Some?
  {
    Dispatching(k.actorId, k.requestId, Invocation(k.request.rawText, k.scopeHint.value), 0)
  }

  lemma ClassifierRoutes(s: State, cap: nat, t: nat, k: Await, eventId: string)
    requires t in s.core.calls && s.core.calls[t] == k
    requires k.Classifying? && k.request.rawText != "" && MatchPrefix(k.request.rawText).None?
    requires k.scopeHint.Some? && CheckTenantPolicy(k.scopeHint.value.tenant.OrgBu(), Provision)
    ensures Next(s, cap, ClassifierDone(t, Fits(Provision), eventId)) == Dispatch(s, t, Routed(k))
  {
    ClassifierSettles(s, cap, ClassifierDone(t, Fits(Provision), eventId));
    assert ClassifyReturned(s.core.pending, k, Fits(Provision), eventId) == (s.core.pending, Suspends(Routed(k)));
  }

  lemma RoutedFromCall(s: State, t: nat, k: Await, chain: Chain, size: nat, next: Await)
    requires InCall(s, t, k, chain, size)
    ensures InCall(Dispatch(s, t, next), t, next, chain, size)
  {
  }

  lemma IntakeRoutes(ss: seq<State>, events: seq<Event>, cap: nat, t: nat, k: Await, chain: Chain, size: nat)
    returns (longer: seq<State>, more: seq<Event>)
    requires IsRun(ss, events, cap) && InCall(ss[|events|], t, k, chain, size)
    requires k.Classifying? && k.request.rawText != "" && MatchPrefix(k.request.rawText).None?
    requires k.scopeHint.Some? && CheckTenantPolicy(k.scopeHint.value.tenant.OrgBu(), Provision)
    ensures IsRun(longer, more, cap)
    ensures InCall(longer[|more|], t, Routed(k), chain, size)
  {
    var s, ev := ss[|events|], ClassifierDone(t, Fits(Provision), LongerId(size));
    ClassifierRoutes(s, cap, t, k, ev.eventId);
    RoutedFromCall(s, t, k, chain, size, Routed(k));
    longer, more := Extend(ss, events, cap, ev);
  }

  const HINT := ScopeHint(Tenant("aiq", "it"), None, None)

  lemma FirstCall(cap: nat) returns (ss: seq<State>, events: seq<Event>)
    ensures IsRun(ss, events, cap)
    ensures InCall(
              ss[|events|], 0, Classifying("a", "r", IntakeRequest("t", 0), Some(HINT)),
              Chain("t", Some(HINT), [], 0), 0)
  {
    var ev := Start(Actor("a", false), "r", "t", Some(HINT));
    ss, events := Extend([INITIAL], [], cap, ev);
  }

  /** A text that no prefix classifies, and an answer to it is such a text again. */
  predicate Unprefixed(text: string) {
    text != "" && text[0] == 't'
  }

  lemma UnprefixedText(text: string, answer: string)
    requires Unprefixed(text)
    ensures MatchPrefix(text).None? && Unprefixed(WithAnswer(text, answer))
  {
  }

  /** The dialogue is in its stage's call of the given round, with as many questions asked as answers accepted. */
  ghost predicate AtRound(s: State, t: nat, k: Await, chain: Chain, size: nat, answers: nat) {
    && InCall(s, t, k, chain, size) && k.requestId == "r"
    && |chain.answers| == chain.asked == answers
  }

  /** The intake can be brought to ask n times and be answered each time. */
  lemma {:induction false} IntakeStage(cap: nat, n: nat)
    returns (ss: seq<State>, events: seq<Event>, t: nat, k: Await, chain: Chain, size: nat)
    requires n <= Rounds(cap)
    ensures IsRun(ss, events, cap) && AtRound(ss[|events|], t, k, chain, size, n)
    ensures k.Classifying? && k.request.clarificationRound == n && Unprefixed(k.request.rawText)
    ensures k.scopeHint == Some(HINT)
  {
    if n == 0 {
      ss, events := FirstCall(cap);
      t, size := 0, 0;
      k, chain := Classifying("a", "r", IntakeRequest("t", 0), Some(HINT)), Chain("t", Some(HINT), [], 0);
    } else {
      ss, events, t, k, chain, size := IntakeStage(cap, n - 1);
      UnprefixedText(k.request.rawText, "x");
      var p := IntakePending(LongerId(size), k.actorId, k.scopeHint, k.request);
      ss, events := IntakeAsks(ss, events, cap, t, k, chain, size);
      chain, size, t := chain.(asked := chain.asked + 1), size + 1, t + 1;
      ss, events := AnswerAccepted(ss, events, cap, p, t, chain, size, "x");
      k, chain := Resumed(p, "x"), chain.(answers := chain.answers + ["x"]);
    }
  }

  lemma ProvisionRound(
    ss: seq<State>, events: seq<Event>, cap: nat, t: nat, k: Await, chain: Chain, size: nat, answers: nat)
    returns (longer: seq<State>, more: seq<Event>, k': Await, chain': Chain)
    requires IsRun(ss, events, cap) && AtRound(ss[|events|], t, k, chain, size, answers)
    requires k.Dispatching? && k.round < Rounds(cap)
    ensures IsRun(longer, more, cap) && AtRound(longer[|more|], t + 1, k', chain', size + 1, answers + 1)
    ensures k'.Dispatching? && k'.round == k.round + 1
  {
    var p := ProvisionPending(LongerId(size), k.actorId, k.invocation, k.round);
    longer, more := HandlerAsks(ss, events, cap, t, k, chain, size);
    chain' := chain.(asked := chain.asked + 1);
    longer, more := AnswerAccepted(longer, more, cap, p, t + 1, chain', size + 1, "x");
    k', chain' := Resumed(p, "x"), chain'.(answers := chain'.answers + ["x"]);
  }

  lemma ProvisionBegins(cap: nat)
    returns (ss: seq<State>, events: seq<Event>, t: nat, k: Await, chain: Chain, size: nat)
    ensures IsRun(ss, events, cap) && AtRound(ss[|events|], t, k, chain, size, Rounds(cap))
    ensures k.Dispatching? && k.round == 0
  {
    ss, events, t, k, chain, size := IntakeStage(cap, Rounds(cap));
    UnprefixedText(k.request.rawText, "x");
    assert HINT.tenant.OrgBu() == "aiq:it";
    ss, events := IntakeRoutes(ss, events, cap, t, k, chain, size);
    k := Routed(k);
  }

  /** After that, so can the provision handler. */
  lemma {:induction false} ProvisionStage(cap: nat, n: nat)
    returns (ss: seq<State>, events: seq<Event>, t: nat, k: Await, chain: Chain, size: nat)
    requires n <= Rounds(cap)
    ensures IsRun(ss, events, cap) && AtRound(ss[|events|], t, k, chain, size, Rounds(cap) + n)
    ensures k.Dispatching? && k.round == n
  {
    if n == 0 {
      ss, events, t, k, chain, size := ProvisionBegins(cap);
    } else {
      ss, events, t, k, chain, size := ProvisionStage(cap, n - 1);
      ss, events, k, chain := ProvisionRound(ss, events, cap, t, k, chain, size, Rounds(cap) + n - 1);
      t, size := t + 1, size + 1;
    }
  }

  /** For every cap some run asks as many questions and accepts as many answers as the bounds allow. */
  lemma BoundIsReached(cap: nat) returns (ss: seq<State>, events: seq<Event>)
    ensures IsRun(ss, events, cap)
    ensures |AnswersOf(ss, events, cap, |events|, 0)| == 2 * Rounds(cap)
    ensures QuestionsOf(ss, events, cap, |events|, 0) == 2 * Rounds(cap) + 1
  {
    var t, k, chain, size;
    ss, events, t, k, chain, size := ProvisionStage(cap, Rounds(cap));
    ss, events := HandlerAsks(ss, events, cap, t, k, chain, size);
    ChainsCountTheRun(ss, events, cap, |events|, 0);
  }
}
