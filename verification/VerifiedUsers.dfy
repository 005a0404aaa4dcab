/**
 * Verified users, and the confirmation flow that joins them to the attempt store: a token is confirmed, then the
 * user of its mailbox is created or recovered and a session is issued to that user. The two stores are locked one
 * after the other, so confirmations interleave between the two calls.
 */
module VerifiedUsers {
  import opened Wrappers
  import opened VerificationAttempts

  datatype Account = Account(subject: string, createdAt: int)

  datatype Users = Users(accounts: map<string, Account>, subjectByEmail: map<string, string>)

  const NO_USERS := Users(map[], map[])

  /** Emails are canonical here; `generated` is the subject a new account would get. */
  function CreateOrRecover(u: Users, email: string, generated: string, now: int): (Users, string) {
    if email in u.subjectByEmail then (u, u.subjectByEmail[email])
    else
      (Users(u.accounts[generated := Account(generated, now)], u.subjectByEmail[email := generated]), generated)
  }

  /** Every contact names an account, and no account belongs to two mailboxes. */
  ghost predicate UsersInv(u: Users) {
    && (forall email :: email in u.subjectByEmail ==>
          u.subjectByEmail[email] in u.accounts
          && u.accounts[u.subjectByEmail[email]].subject == u.subjectByEmail[email])
    && (forall a, b :: a in u.subjectByEmail && b in u.subjectByEmail && a != b ==>
          u.subjectByEmail[a] != u.subjectByEmail[b])
  }

  // ---------- Confirming a token and issuing a session ----------

  /** A confirmation between its two calls: an attempt is consumed, its user is not looked up yet. */
  datatype Confirmation = Confirmation(digest: string, email: string, now: int)

  /** The stores, and the confirmations under way, each under its own number. */
  datatype World = World(store: Store, users: Users, waiting: map<nat, Confirmation>, nextCall: nat)

  const EMPTY_WORLD := World(EMPTY_STORE, NO_USERS, map[], 0)

  datatype Event =
    | Begin(attempt: Attempt, now: int)
    | Confirm(digest: string, now: int)
    | IssueSession(call: nat, generated: string)
    | Abandon(call: nat)

  datatype Session = Session(email: string, subject: string)

  /** The session a step issues: only the second half of a confirmation issues one. */
  function Issues(w: World, ev: Event): Option<Session> {
    match ev
    case IssueSession(call, generated) =>
      if call in w.waiting then
        var c := w.waiting[call];
        Some(Session(c.email, CreateOrRecover(w.users, c.email, generated, c.now).1))
      else None
    case _ => None
  }

  /** What the step does to the attempt store, if it touches it. */
  function StoreEvent(ev: Event): Option<VerificationAttempts.Event> {
    match ev
    case Begin(attempt, now) => Some(Saved(attempt, now))
    case Confirm(digest, now) => Some(Confirmed(digest, now))
    case _ => None
  }

  function StoreNext(s: Store, ev: Event): Store {
    match StoreEvent(ev)
    case Some(storeEvent) => VerificationAttempts.Next(s, storeEvent)
    case None => s
  }

  function Next(w: World, ev: Event): World {
    match ev
    case Begin(_, _) => w.(store := StoreNext(w.store, ev))
    case Confirm(digest, now) =>
      (match ConsumedEmail(w.store.rows, digest, now)
       case None => w
       case Some(email) =>
         World(
           StoreNext(w.store, ev), w.users, w.waiting[w.nextCall := Confirmation(digest, email, now)],
           w.nextCall + 1))
    case IssueSession(call, generated) =>
      if call in w.waiting then
        var c := w.waiting[call];
        w.(users := CreateOrRecover(w.users, c.email, generated, c.now).0, waiting := w.waiting - {call})
      else w
    case Abandon(call) => w.(waiting := w.waiting - {call})
  }

  ghost predicate Step(ws: seq<World>, events: seq<Event>, n: nat)
    requires n < |events| && |ws| == |events| + 1
  {
    && (events[n].Begin? ==>
          events[n].attempt.IsWellFormed() && !HasId(ws[n].store.rows, events[n].attempt.attemptId))
    && (events[n].IssueSession? ==> events[n].generated !in ws[n].users.accounts)
    && ws[n + 1] == Next(ws[n], events[n])
  }

  /** Attempts carry fresh ids, and generated subjects are fresh. */
  ghost predicate IsRun(ws: seq<World>, events: seq<Event>) {
    && |ws| == |events| + 1
    && ws[0] == EMPTY_WORLD
    && forall n {:trigger Step(ws, events, n)} :: 0 <= n < |events| ==> Step(ws, events, n)
  }

  lemma {:induction false} UsersHold(ws: seq<World>, events: seq<Event>, n: nat)
    requires IsRun(ws, events) && n <= |events|
    ensures UsersInv(ws[n].users)
  {
    if n > 0 {
      UsersHold(ws, events, n - 1);
      assert Step(ws, events, n - 1);
    }
  }

  /** A mailbox keeps its subject for ever. */
  lemma {:induction false} SubjectsStay(ws: seq<World>, events: seq<Event>, m: nat, n: nat)
    requires IsRun(ws, events) && m <= n <= |events|
    ensures forall email :: email in ws[m].users.subjectByEmail ==>
              email in ws[n].users.subjectByEmail
              && ws[n].users.subjectByEmail[email] == ws[m].users.subjectByEmail[email]
    decreases n
  {
    if m < n {
      SubjectsStay(ws, events, m, n - 1);
      assert Step(ws, events, n - 1);
    }
  }

  /** A session goes to the account recorded for its mailbox right after the step. */
  lemma SessionMatchesContact(ws: seq<World>, events: seq<Event>, n: nat)
    requires IsRun(ws, events) && n < |events| && Issues(ws[n], events[n]).Some?
    ensures var s := Issues(ws[n], events[n]).value;
            && s.email in ws[n + 1].users.subjectByEmail && ws[n + 1].users.subjectByEmail[s.email] == s.subject
            && s.subject in ws[n + 1].users.accounts
  {
    assert Step(ws, events, n);
    UsersHold(ws, events, n + 1);
  }

  /** Under every interleaving, two sessions belong to one subject exactly when they were confirmed from one mailbox. */
  lemma OneSubjectPerMailbox(ws: seq<World>, events: seq<Event>, i: nat, j: nat)
    requires IsRun(ws, events) && i <= j < |events|
    requires Issues(ws[i], events[i]).Some? && Issues(ws[j], events[j]).Some?
    ensures Issues(ws[i], events[i]).value.email == Issues(ws[j], events[j]).value.email <==>
            Issues(ws[i], events[i]).value.subject == Issues(ws[j], events[j]).value.subject
  {
    SessionMatchesContact(ws, events, i);
    SessionMatchesContact(ws, events, j);
    SubjectsStay(ws, events, i + 1, j + 1);
    UsersHold(ws, events, j + 1);
  }

  // ---------- Where a session comes from ----------

  /** The step consumes an attempt and puts this confirmation under the number of the call. */
  predicate Confirms(w: World, ev: Event, call: nat, c: Confirmation) {
    && ev == Confirm(c.digest, c.now) && call == w.nextCall
    && ConsumedEmail(w.store.rows, c.digest, c.now) == Some(c.email)
  }

  lemma {:induction false} WaitingOrigin(ws: seq<World>, events: seq<Event>, n: nat, call: nat) returns (i: nat)
    requires IsRun(ws, events) && n <= |events| && call in ws[n].waiting
    ensures i < n && Confirms(ws[i], events[i], call, ws[n].waiting[call])
    decreases n
  {
    assert Step(ws, events, n - 1);
    if call in ws[n - 1].waiting && ws[n - 1].waiting[call] == ws[n].waiting[call] {
      i := WaitingOrigin(ws, events, n - 1, call);
    } else {
      i := n - 1;
    }
  }

  /** A session is issued for the mailbox of an attempt that an earlier confirmation, its own, consumed. */
  lemma SessionOrigin(ws: seq<World>, events: seq<Event>, n: nat) returns (i: nat, c: Confirmation)
    requires IsRun(ws, events) && n < |events| && Issues(ws[n], events[n]).Some?
    ensures i < n && Confirms(ws[i], events[i], events[n].call, c)
    ensures c.email == Issues(ws[n], events[n]).value.email
  {
    c := ws[n].waiting[events[n].call];
    i := WaitingOrigin(ws, events, n, events[n].call);
  }

  lemma {:induction false} CallNumbersGrow(ws: seq<World>, events: seq<Event>, m: nat, n: nat)
    requires IsRun(ws, events) && m <= n <= |events|
    ensures ws[m].nextCall <= ws[n].nextCall
    ensures forall call :: call in ws[n].waiting ==> call < ws[n].nextCall
    ensures forall call :: call in ws[n].waiting && call < ws[m].nextCall ==> call in ws[m].waiting
    decreases n
  {
    if n > 0 {
      assert Step(ws, events, n - 1);
      CallNumbersGrow(ws, events, if m < n then m else n - 1, n - 1);
    }
  }

  /** No confirmation yields two sessions. */
  lemma OneSessionPerConfirmation(ws: seq<World>, events: seq<Event>, i: nat, j: nat)
    requires IsRun(ws, events) && i < j < |events|
    requires Issues(ws[i], events[i]).Some? && Issues(ws[j], events[j]).Some?
    ensures events[i].call != events[j].call
  {
    assert Step(ws, events, i);
    CallNumbersGrow(ws, events, i, i);
    CallNumbersGrow(ws, events, i + 1, j);
  }

  // ---------- Sessions per token ----------

  /** Sessions issued for a confirmation of the digest, among the first n steps. */
  ghost function Sessions(ws: seq<World>, events: seq<Event>, n: nat, digest: string): nat
    requires n <= |events| && |ws| == |events| + 1
  {
    if n == 0 then 0
    else Sessions(ws, events, n - 1, digest) + (if IssuesFor(ws[n - 1], events[n - 1], digest) then 1 else 0)
  }

  predicate IssuesFor(w: World, ev: Event, digest: string) {
    ev.IssueSession? && ev.call in w.waiting && w.waiting[ev.call].digest == digest
  }

  /** Attempts begun among the first n steps that bear the digest. */
  function Begun(events: seq<Event>, n: nat, digest: string): nat
    requires n <= |events|
  {
    if n == 0 then 0
    else
      Begun(events, n - 1, digest)
      + (if events[n - 1].Begin? && events[n - 1].attempt.tokenDigest == digest then 1 else 0)
  }

  /** The confirmations of the digest under way. */
  function WaitingFor(w: World, digest: string): set<nat> {
    set call | call in w.waiting && w.waiting[call].digest == digest
  }

  predicate ConfirmSucceeds(w: World, ev: Event, digest: string) {
    ev.Confirm? && Succeeds(w.store, Confirmed(ev.digest, ev.now), digest)
  }

  lemma WaitingAfter(w: World, ev: Event, digest: string)
    requires forall call :: call in w.waiting ==> call < w.nextCall
    ensures WaitingFor(Next(w, ev), digest) ==
            if ConfirmSucceeds(w, ev, digest) then WaitingFor(w, digest) + {w.nextCall}
            else if ev.IssueSession? || ev.Abandon? then WaitingFor(w, digest) - {ev.call}
            else WaitingFor(w, digest)
    ensures IssuesFor(w, ev, digest) <==> ev.IssueSession? && ev.call in WaitingFor(w, digest)
  {
  }

  lemma OneMoreOrLess(s: set<nat>, x: nat)
    ensures |s + {x}| <= |s| + 1
    ensures |s - {x}| == |s| - (if x in s then 1 else 0)
  {
    if x !in s {
      assert s - {x} == s;
    }
  }

  /** A step turns a success into a waiting confirmation, or a waiting confirmation into a session. */
  lemma StepTrades(w: World, ev: Event, after: World, digest: string)
    requires (forall call :: call in w.waiting ==> call < w.nextCall) && after == Next(w, ev)
    ensures |WaitingFor(after, digest)| + (if IssuesFor(w, ev, digest) then 1 else 0)
            <= |WaitingFor(w, digest)| + (if ConfirmSucceeds(w, ev, digest) then 1 else 0)
  {
    WaitingAfter(w, ev, digest);
    OneMoreOrLess(WaitingFor(w, digest), if ev.IssueSession? || ev.Abandon? then ev.call else w.nextCall);
  }

  lemma StoreStep(ws: seq<World>, events: seq<Event>, n: nat, digest: string)
    requires IsRun(ws, events) && n < |events| && IndexInv(ws[n].store)
    ensures IndexInv(ws[n + 1].store)
    ensures Bearing(ws[n + 1].store.rows, digest) ==
            Bearing(ws[n].store.rows, digest)
            + (if events[n].Begin? && events[n].attempt.tokenDigest == digest then 1 else 0)
    ensures Consumed(ws[n + 1].store.rows, digest) >=
            Consumed(ws[n].store.rows, digest)
            + (if ConfirmSucceeds(ws[n], events[n], digest) then 1 else 0)
  {
    assert Step(ws, events, n);
    var s := ws[n].store;
    match StoreEvent(events[n])
    case Some(ev) =>
      StepKeepsIndex(s, ev);
      StepCounts(s, ev, digest);
      assert ws[n + 1].store == VerificationAttempts.Next(s, ev);
    case None =>
  }

  lemma {:induction false} AttemptsCounted(ws: seq<World>, events: seq<Event>, n: nat, digest: string)
    requires IsRun(ws, events) && n <= |events|
    ensures IndexInv(ws[n].store)
    ensures Bearing(ws[n].store.rows, digest) == Begun(events, n, digest)
  {
    if n > 0 {
      AttemptsCounted(ws, events, n - 1, digest);
      StoreStep(ws, events, n - 1, digest);
    }
  }

  lemma {:induction false} SessionsCounted(ws: seq<World>, events: seq<Event>, n: nat, digest: string)
    requires IsRun(ws, events) && n <= |events|
    ensures Sessions(ws, events, n, digest) + |WaitingFor(ws[n], digest)| <= Consumed(ws[n].store.rows, digest)
  {
    if n == 0 {
      assert WaitingFor(EMPTY_WORLD, digest) == {};
    } else {
      SessionsCounted(ws, events, n - 1, digest);
      AttemptsCounted(ws, events, n - 1, digest);
      StoreStep(ws, events, n - 1, digest);
      CallNumbersGrow(ws, events, n - 1, n - 1);
      StepTradesAt(ws, events, n - 1, digest);
    }
  }

  lemma StepTradesAt(ws: seq<World>, events: seq<Event>, n: nat, digest: string)
    requires IsRun(ws, events) && n < |events|
    requires forall call :: call in ws[n].waiting ==> call < ws[n].nextCall
    ensures |WaitingFor(ws[n + 1], digest)| + (if IssuesFor(ws[n], events[n], digest) then 1 else 0)
            <= |WaitingFor(ws[n], digest)| + (if ConfirmSucceeds(ws[n], events[n], digest) then 1 else 0)
  {
    assert Step(ws, events, n);
    StepTrades(ws[n], events[n], ws[n + 1], digest);
  }

  /**
   * Under every interleaving a token yields at most as many sessions, issued or still to come, as attempts bearing
   * its digest were begun: one, if it is unique.
   */
  lemma SessionsBounded(ws: seq<World>, events: seq<Event>, n: nat, digest: string)
    requires IsRun(ws, events) && n <= |events|
    ensures Sessions(ws, events, n, digest) + |WaitingFor(ws[n], digest)| <= Begun(events, n, digest)
  {
    SessionsCounted(ws, events, n, digest);
    AttemptsCounted(ws, events, n, digest);
    CountsBounded(ws[n].store.rows, digest);
  }

  /** The in-memory user store, with its two dictionaries updated in place. */
  class InMemoryUserRegistrationStore {
    var accountsBySubject: map<string, Account>
    var subjectByCanonicalEmail: map<string, string>

    ghost function State(): Users
      reads this
    {
      Users(accountsBySubject, subjectByCanonicalEmail)
    }

    constructor ()
      ensures State() == NO_USERS && UsersInv(State())
    {
      accountsBySubject, subjectByCanonicalEmail := map[], map[];
    }

    method CreateOrRecoverVerifiedUser(email: string, generated: string, now: int) returns (account: Account)
      requires UsersInv(State()) && generated !in accountsBySubject
      modifies this
      ensures UsersInv(State())
      ensures (State(), account.subject) == CreateOrRecover(old(State()), email, generated, now)
      ensures account.subject in accountsBySubject && accountsBySubject[account.subject] == account
      ensures email in subjectByCanonicalEmail && subjectByCanonicalEmail[email] == account.subject
      ensures email in old(subjectByCanonicalEmail) ==>
                accountsBySubject == old(accountsBySubject) && subjectByCanonicalEmail == old(subjectByCanonicalEmail)
      ensures email !in old(subjectByCanonicalEmail) ==>
                && account == Account(generated, now)
                && accountsBySubject == old(accountsBySubject)[generated := account]
                && subjectByCanonicalEmail == old(subjectByCanonicalEmail)[email := generated]
    {
      if email in subjectByCanonicalEmail {
        return accountsBySubject[subjectByCanonicalEmail[email]];
      }
      account := Account(generated, now);
      accountsBySubject := accountsBySubject[account.subject := account];
      subjectByCanonicalEmail := subjectByCanonicalEmail[email := account.subject];
    }
  }
}
