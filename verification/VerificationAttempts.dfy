/**
 * Verification attempts: the in-memory store with its index of one active attempt per email, and the SQL
 * statements that scan the whole table. Both are specified on the table of rows in insertion order.
 */
module VerificationAttempts {
  import opened Wrappers

  const HEX_DIGITS := "0123456789abcdef"

  datatype Attempt = Attempt(
    attemptId: string,
    canonicalEmail: string,
    tokenDigest: string,
    expiresAt: int,
    createdAt: int,
    consumedAt: Option<int>,
    invalidatedAt: Option<int>)
  {
    predicate IsWellFormed() {
      && |attemptId| >= 8
      && |tokenDigest| == 64 && (forall i :: 0 <= i < |tokenDigest| ==> tokenDigest[i] in HEX_DIGITS)
      && createdAt < expiresAt && !(consumedAt.Some? && invalidatedAt.Some?)
    }

    predicate IsLive() {
      consumedAt.None? && invalidatedAt.None?
    }

    predicate IsExpired(now: int) {
      now >= expiresAt
    }

    predicate Answers(digest: string, now: int) {
      tokenDigest == digest && IsLive() && !IsExpired(now)
    }
  }

  type Table = seq<Attempt>

  predicate HasId(rows: Table, id: string) {
    exists i :: 0 <= i < |rows| && rows[i].attemptId == id
  }

  ghost predicate DistinctIds(rows: Table) {
    forall i, j :: 0 <= i < j < |rows| ==> rows[i].attemptId != rows[j].attemptId
  }

  // ---------- The SQL statements ----------

  /** UPDATE ... SET invalidated_at WHERE canonical_email = email and the row is live. */
  function InvalidateLive(rows: Table, email: string, now: int): (r: Table)
    ensures |r| == |rows|
  {
    seq(|rows|, i requires 0 <= i < |rows| =>
      if rows[i].canonicalEmail == email && rows[i].IsLive() then rows[i].(invalidatedAt := Some(now)) else rows[i])
  }

  /** One transaction; a repeated attempt id violates the primary key and rolls it back. */
  function SqlSave(rows: Table, attempt: Attempt, now: int): Option<Table> {
    if HasId(rows, attempt.attemptId) then None
    else Some(InvalidateLive(rows, attempt.canonicalEmail, now) + [attempt])
  }

  /** UPDATE ... SET consumed_at on every row that answers the digest. */
  function SqlConsume(rows: Table, digest: string, now: int): (r: Table)
    ensures |r| == |rows|
  {
    seq(|rows|, i requires 0 <= i < |rows| =>
      if rows[i].Answers(digest, now) then rows[i].(consumedAt := Some(now)) else rows[i])
  }

  // ---------- The in-memory store ----------

  datatype Store = Store(rows: Table, active: map<string, string>)

  const EMPTY_STORE := Store([], map[])

  function InvalidateById(rows: Table, id: string, now: int): (r: Table)
    ensures |r| == |rows|
  {
    seq(|rows|, i requires 0 <= i < |rows| =>
      if rows[i].attemptId == id && rows[i].IsLive() then rows[i].(invalidatedAt := Some(now)) else rows[i])
  }

  /** Attempt ids are generated fresh, so the row is always a new one. */
  function Save(s: Store, attempt: Attempt, now: int): Store {
    var rows := if attempt.canonicalEmail in s.active
                then InvalidateById(s.rows, s.active[attempt.canonicalEmail], now)
                else s.rows;
    Store(rows + [attempt], s.active[attempt.canonicalEmail := attempt.attemptId])
  }

  /** A row stored under its id: an id already there keeps its place and gets the new row. */
  function PutRow(rows: Table, attempt: Attempt): Table {
    if HasId(rows, attempt.attemptId) then
      seq(|rows|, i requires 0 <= i < |rows| => if rows[i].attemptId == attempt.attemptId then attempt else rows[i])
    else rows + [attempt]
  }

  /** Saving an attempt under any id, one already stored included. */
  function SaveOver(s: Store, attempt: Attempt, now: int): Store {
    var rows := if attempt.canonicalEmail in s.active
                then InvalidateById(s.rows, s.active[attempt.canonicalEmail], now)
                else s.rows;
    Store(PutRow(rows, attempt), s.active[attempt.canonicalEmail := attempt.attemptId])
  }

  lemma SaveOverFresh(s: Store, attempt: Attempt, now: int)
    requires !HasId(s.rows, attempt.attemptId)
    ensures SaveOver(s, attempt, now) == Save(s, attempt, now)
  {
  }

  /** Index of the first row, in insertion order, that answers the digest. */
  function FirstAnswer(rows: Table, digest: string, now: int): (r: Option<nat>)
    ensures r.Some? ==> r.value < |rows| && rows[r.value].Answers(digest, now)
    ensures r.Some? ==> forall i :: 0 <= i < r.value ==> !rows[i].Answers(digest, now)
    ensures r.None? ==> forall i :: 0 <= i < |rows| ==> !rows[i].Answers(digest, now)
  {
    if rows == [] then None
    else
      var earlier := FirstAnswer(rows[..|rows| - 1], digest, now);
      if earlier.Some? then earlier
      else if rows[|rows| - 1].Answers(digest, now) then Some(|rows| - 1)
      else None
  }

  function Find(rows: Table, digest: string, now: int): Option<Attempt> {
    match FirstAnswer(rows, digest, now)
    case None => None
    case Some(i) => Some(rows[i])
  }

  function Consume(rows: Table, digest: string, now: int): Table {
    match FirstAnswer(rows, digest, now)
    case None => rows
    case Some(i) => rows[i := rows[i].(consumedAt := Some(now))]
  }

  function ConsumedEmail(rows: Table, digest: string, now: int): Option<string> {
    match FirstAnswer(rows, digest, now)
    case None => None
    case Some(i) => Some(rows[i].canonicalEmail)
  }

  // ---------- The index points to the only live attempt of an email ----------

  ghost predicate IndexInv(s: Store) {
    && DistinctIds(s.rows)
    && (forall i :: 0 <= i < |s.rows| && s.rows[i].IsLive() ==>
          s.rows[i].canonicalEmail in s.active && s.active[s.rows[i].canonicalEmail] == s.rows[i].attemptId)
    && (forall email :: email in s.active ==> HoldsAttempt(s.rows, s.active[email], email))
  }

  ghost predicate HoldsAttempt(rows: Table, id: string, email: string) {
    exists i :: 0 <= i < |rows| && rows[i].attemptId == id && rows[i].canonicalEmail == email
  }

  lemma OneLiveAttemptPerEmail(s: Store, i: nat, j: nat)
    requires IndexInv(s) && i < |s.rows| && j < |s.rows|
    requires s.rows[i].IsLive() && s.rows[j].IsLive() && s.rows[i].canonicalEmail == s.rows[j].canonicalEmail
    ensures i == j
  {
  }

  /** Once a new attempt is saved, no older one of the same email can be confirmed any more. */
  lemma OnlyTheNewestLinkWorks(s: Store, attempt: Attempt, now: int, digest: string, later: int)
    requires IndexInv(s) && !HasId(s.rows, attempt.attemptId)
    ensures var rows := Save(s, attempt, now).rows;
            forall i :: 0 <= i < |rows| && rows[i].canonicalEmail == attempt.canonicalEmail
                        && rows[i].Answers(digest, later)
              ==> i == |rows| - 1 && rows[i] == attempt
  {
    SaveRefinesSql(s, attempt, now);
  }

  /** With a fresh id, saving through the index does to the table what the full scan does. */
  lemma SaveRefinesSql(s: Store, attempt: Attempt, now: int)
    requires IndexInv(s) && !HasId(s.rows, attempt.attemptId)
    ensures SqlSave(s.rows, attempt, now) == Some(Save(s, attempt, now).rows)
  {
    var email := attempt.canonicalEmail;
    if email in s.active {
      var id := s.active[email];
      var at :| 0 <= at < |s.rows| && s.rows[at].attemptId == id && s.rows[at].canonicalEmail == email;
      assert InvalidateById(s.rows, id, now) == InvalidateLive(s.rows, email, now) by {
        forall i | 0 <= i < |s.rows|
          ensures InvalidateById(s.rows, id, now)[i] == InvalidateLive(s.rows, email, now)[i]
        {
          if s.rows[i].attemptId == id {
            assert i == at;
          }
        }
      }
    } else {
      assert s.rows == InvalidateLive(s.rows, email, now);
    }
  }

  lemma SaveKeepsIndex(s: Store, attempt: Attempt, now: int)
    requires IndexInv(s) && !HasId(s.rows, attempt.attemptId)
    ensures IndexInv(Save(s, attempt, now))
  {
    SaveRefinesSql(s, attempt, now);
    var after := Save(s, attempt, now);
    var scanned := InvalidateLive(s.rows, attempt.canonicalEmail, now);
    assert after.rows == scanned + [attempt];
    forall email | email in after.active ensures HoldsAttempt(after.rows, after.active[email], email) {
      if email == attempt.canonicalEmail {
        assert after.rows[|scanned|] == attempt;
      } else {
        var at :| 0 <= at < |s.rows| && s.rows[at].attemptId == s.active[email] && s.rows[at].canonicalEmail == email;
        assert after.rows[at].attemptId == s.active[email] && after.rows[at].canonicalEmail == email;
      }
    }
  }

  lemma ConsumeKeepsIndex(s: Store, digest: string, now: int)
    requires IndexInv(s)
    ensures IndexInv(s.(rows := Consume(s.rows, digest, now)))
  {
    var rows := Consume(s.rows, digest, now);
    forall email | email in s.active ensures HoldsAttempt(rows, s.active[email], email) {
      var at :| 0 <= at < |s.rows| && s.rows[at].attemptId == s.active[email] && s.rows[at].canonicalEmail == email;
      assert rows[at].attemptId == s.active[email] && rows[at].canonicalEmail == email;
    }
  }

  ghost predicate AtMostOneAnswers(rows: Table, digest: string, now: int) {
    forall i, j :: 0 <= i < j < |rows| ==> !(rows[i].Answers(digest, now) && rows[j].Answers(digest, now))
  }

  /** Consuming the first answer is the SQL update exactly when at most one row answers the digest. */
  lemma ConsumeAgreesWithSqlIff(rows: Table, digest: string, now: int)
    ensures Consume(rows, digest, now) == SqlConsume(rows, digest, now) <==> AtMostOneAnswers(rows, digest, now)
  {
    var first := FirstAnswer(rows, digest, now);
    if first.None? {
      assert SqlConsume(rows, digest, now) == rows;
    } else if AtMostOneAnswers(rows, digest, now) {
      assert Consume(rows, digest, now) == SqlConsume(rows, digest, now);
    } else {
      var i, j :| 0 <= i < j < |rows| && rows[i].Answers(digest, now) && rows[j].Answers(digest, now);
      assert j != first.value;
      assert Consume(rows, digest, now)[j] != SqlConsume(rows, digest, now)[j];
    }
  }

  /** Looking a link up foretells what confirming it will do, and shows the row it will consume. */
  lemma FindForetellsConsume(rows: Table, digest: string, now: int)
    ensures Find(rows, digest, now).Some? <==> ConsumedEmail(rows, digest, now).Some?
    ensures Find(rows, digest, now).Some? <==>
            exists i :: 0 <= i < |rows| && rows[i].tokenDigest == digest && now < rows[i].expiresAt
                        && rows[i].consumedAt.None? && rows[i].invalidatedAt.None?
    ensures Find(rows, digest, now).Some? ==>
              var row := Find(rows, digest, now).value;
              && row.tokenDigest == digest && now < row.expiresAt
              && row.consumedAt.None? && row.invalidatedAt.None?
              && ConsumedEmail(rows, digest, now) == Some(row.canonicalEmail)
              && row.(consumedAt := Some(now)) in Consume(rows, digest, now)
    ensures Find(rows, digest, now).None? ==> Consume(rows, digest, now) == rows
  {
    var first := FirstAnswer(rows, digest, now);
    if first.Some? {
      assert Consume(rows, digest, now)[first.value] == rows[first.value].(consumedAt := Some(now));
    }
  }

  // ---------- Runs ----------

  datatype Event = Saved(attempt: Attempt, now: int) | Confirmed(digest: string, now: int)

  function Next(s: Store, ev: Event): Store {
    match ev
    case Saved(attempt, now) => Save(s, attempt, now)
    case Confirmed(digest, now) => s.(rows := Consume(s.rows, digest, now))
  }

  function SqlNext(rows: Table, ev: Event): Table {
    match ev
    case Saved(attempt, now) => (match SqlSave(rows, attempt, now) case Some(after) => after case None => rows)
    case Confirmed(digest, now) => SqlConsume(rows, digest, now)
  }

  ghost predicate Step(ss: seq<Store>, events: seq<Event>, n: nat)
    requires n < |events| && |ss| == |events| + 1
  {
    && (events[n].Saved? ==>
          events[n].attempt.IsWellFormed() && !HasId(ss[n].rows, events[n].attempt.attemptId))
    && ss[n + 1] == Next(ss[n], events[n])
  }

  /** A run of the in-memory store; saved attempts are valid and carry fresh ids. */
  ghost predicate IsRun(ss: seq<Store>, events: seq<Event>) {
    && |ss| == |events| + 1
    && ss[0] == EMPTY_STORE
    && forall n {:trigger Step(ss, events, n)} :: 0 <= n < |events| ==> Step(ss, events, n)
  }

  lemma StepKeepsIndex(s: Store, ev: Event)
    requires IndexInv(s) && (ev.Saved? ==> !HasId(s.rows, ev.attempt.attemptId))
    ensures IndexInv(Next(s, ev))
  {
    match ev
    case Saved(attempt, now) => SaveKeepsIndex(s, attempt, now);
    case Confirmed(digest, now) => ConsumeKeepsIndex(s, digest, now);
  }

  lemma {:induction false} IndexHolds(ss: seq<Store>, events: seq<Event>, n: nat)
    requires IsRun(ss, events) && n <= |events|
    ensures IndexInv(ss[n])
  {
    if n > 0 {
      IndexHolds(ss, events, n - 1);
      assert Step(ss, events, n - 1);
      StepKeepsIndex(ss[n - 1], events[n - 1]);
    }
  }

  /** A row stays as it is, or, while live, receives exactly one of its two timestamps. */
  predicate Evolves(a: Attempt, b: Attempt) {
    || a == b
    || (&& a.IsLive()
        && (|| (b.consumedAt.Some? && b == a.(consumedAt := b.consumedAt))
            || (b.invalidatedAt.Some? && b == a.(invalidatedAt := b.invalidatedAt))))
  }

  ghost predicate TableEvolves(a: Table, b: Table) {
    |a| <= |b| && forall i :: 0 <= i < |a| ==> Evolves(a[i], b[i])
  }

  /** Each timestamp is written at most once over a whole run, and no row ever carries both. */
  lemma {:induction false} TimestampsAreFinal(ss: seq<Store>, events: seq<Event>, m: nat, n: nat)
    requires IsRun(ss, events) && m <= n <= |events|
    ensures TableEvolves(ss[m].rows, ss[n].rows)
    ensures forall i :: 0 <= i < |ss[n].rows| ==> ss[n].rows[i].IsWellFormed()
    decreases n
  {
    if n > 0 {
      assert Step(ss, events, n - 1);
      TimestampsAreFinal(ss, events, if m < n then m else n - 1, n - 1);
    }
  }

  // ---------- How often a digest can be consumed ----------

  function Consumed(rows: Table, digest: string): nat {
    if rows == [] then 0
    else
      Consumed(rows[..|rows| - 1], digest)
      + (if rows[|rows| - 1].tokenDigest == digest && rows[|rows| - 1].consumedAt.Some? then 1 else 0)
  }

  function Bearing(rows: Table, digest: string): nat {
    if rows == [] then 0
    else Bearing(rows[..|rows| - 1], digest) + (if rows[|rows| - 1].tokenDigest == digest then 1 else 0)
  }

  /** The step confirms the digest and consumes an attempt. */
  predicate Succeeds(s: Store, ev: Event, digest: string) {
    ev.Confirmed? && ev.digest == digest && ConsumedEmail(s.rows, ev.digest, ev.now).Some?
  }

  /** Confirmations of the digest among the first n events that succeeded. */
  ghost function Successes(ss: seq<Store>, events: seq<Event>, n: nat, digest: string): nat
    requires n <= |events| && |ss| == |events| + 1
  {
    if n == 0 then 0
    else Successes(ss, events, n - 1, digest) + (if Succeeds(ss[n - 1], events[n - 1], digest) then 1 else 0)
  }

  /** Attempts saved among the first n events that bear the digest. */
  function SavedBearing(events: seq<Event>, n: nat, digest: string): nat
    requires n <= |events|
  {
    if n == 0 then 0
    else
      SavedBearing(events, n - 1, digest)
      + (if events[n - 1].Saved? && events[n - 1].attempt.tokenDigest == digest then 1 else 0)
  }

  lemma {:induction false} CountsBounded(rows: Table, digest: string)
    ensures Consumed(rows, digest) <= Bearing(rows, digest)
  {
    if rows != [] {
      CountsBounded(rows[..|rows| - 1], digest);
    }
  }

  /** Consuming row i raises the count by one; nothing else about the table counts. */
  lemma {:induction false} CountAfterConsume(rows: Table, i: nat, now: int, digest: string)
    requires i < |rows| && rows[i].IsLive()
    ensures var after := rows[i := rows[i].(consumedAt := Some(now))];
            && Bearing(after, digest) == Bearing(rows, digest)
            && Consumed(after, digest) == Consumed(rows, digest) + (if rows[i].tokenDigest == digest then 1 else 0)
  {
    var init := rows[..|rows| - 1];
    var after := rows[i := rows[i].(consumedAt := Some(now))];
    if i == |rows| - 1 {
      assert after[..|rows| - 1] == init;
    } else {
      CountAfterConsume(init, i, now, digest);
      assert after[..|rows| - 1] == init[i := rows[i].(consumedAt := Some(now))];
    }
  }

  /** Invalidating rows changes neither count. */
  lemma {:induction false} CountAfterInvalidate(rows: Table, email: string, now: int, digest: string)
    ensures Bearing(InvalidateLive(rows, email, now), digest) == Bearing(rows, digest)
    ensures Consumed(InvalidateLive(rows, email, now), digest) == Consumed(rows, digest)
  {
    if rows != [] {
      CountAfterInvalidate(rows[..|rows| - 1], email, now, digest);
      assert InvalidateLive(rows, email, now)[..|rows| - 1] == InvalidateLive(rows[..|rows| - 1], email, now);
    }
  }

  /** A step adds to the attempts bearing a digest what it saves, and to the consumed ones at least its success. */
  lemma StepCounts(s: Store, ev: Event, digest: string)
    requires IndexInv(s) && (ev.Saved? ==> !HasId(s.rows, ev.attempt.attemptId))
    ensures Bearing(Next(s, ev).rows, digest) ==
            Bearing(s.rows, digest) + (if ev.Saved? && ev.attempt.tokenDigest == digest then 1 else 0)
    ensures Consumed(Next(s, ev).rows, digest) >=
            Consumed(s.rows, digest) + (if Succeeds(s, ev, digest) then 1 else 0)
  {
    match ev
    case Saved(attempt, now) =>
      var after := Next(s, ev).rows;
      SaveRefinesSql(s, attempt, now);
      CountAfterInvalidate(s.rows, attempt.canonicalEmail, now, digest);
      assert after[..|after| - 1] == InvalidateLive(s.rows, attempt.canonicalEmail, now);
    case Confirmed(d, now) =>
      var first := FirstAnswer(s.rows, d, now);
      if first.Some? {
        CountAfterConsume(s.rows, first.value, now, digest);
      }
  }

  lemma {:induction false} CountsOverRun(ss: seq<Store>, events: seq<Event>, n: nat, digest: string)
    requires IsRun(ss, events) && n <= |events|
    ensures Successes(ss, events, n, digest) <= Consumed(ss[n].rows, digest)
    ensures Bearing(ss[n].rows, digest) == SavedBearing(events, n, digest)
  {
    if n > 0 {
      CountsOverRun(ss, events, n - 1, digest);
      IndexHolds(ss, events, n - 1);
      assert Step(ss, events, n - 1);
      StepCounts(ss[n - 1], events[n - 1], digest);
    }
  }

  /** A digest is confirmed at most as often as attempts bearing it were saved: once, when digests are unique. */
  lemma ConfirmationsBounded(ss: seq<Store>, events: seq<Event>, n: nat, digest: string)
    requires IsRun(ss, events) && n <= |events|
    ensures Successes(ss, events, n, digest) <= SavedBearing(events, n, digest)
  {
    CountsOverRun(ss, events, n, digest);
    CountsBounded(ss[n].rows, digest);
  }

  // ---------- When the two stores run in step ----------

  ghost predicate IsSqlRun(ts: seq<Table>, events: seq<Event>) {
    && |ts| == |events| + 1
    && ts[0] == []
    && forall n :: 0 <= n < |events| ==> ts[n + 1] == SqlNext(ts[n], events[n])
  }

  /** The stores hold the same table up to the n-th event. */
  ghost predicate AgreeUpTo(ss: seq<Store>, ts: seq<Table>, n: nat)
    requires n < |ss| && n < |ts|
  {
    forall m :: 0 <= m <= n ==> ss[m].rows == ts[m]
  }

  /** The m-th event, if it confirms a digest, finds at most one row that answers it. */
  ghost predicate Unambiguous(ss: seq<Store>, events: seq<Event>, m: nat)
    requires m < |events| && |ss| == |events| + 1
  {
    events[m].Confirmed? ==> AtMostOneAnswers(ss[m].rows, events[m].digest, events[m].now)
  }

  lemma AgreeingStep(s: Store, ev: Event)
    requires IndexInv(s) && (ev.Saved? ==> !HasId(s.rows, ev.attempt.attemptId))
    ensures Next(s, ev).rows == SqlNext(s.rows, ev) <==>
            (ev.Confirmed? ==> AtMostOneAnswers(s.rows, ev.digest, ev.now))
  {
    match ev
    case Saved(attempt, now) => SaveRefinesSql(s, attempt, now);
    case Confirmed(digest, now) => ConsumeAgreesWithSqlIff(s.rows, digest, now);
  }

  /** Over every run the two tables are equal at every point exactly when no confirmation finds two answers. */
  lemma {:induction false} StoresAgreeIff(ss: seq<Store>, ts: seq<Table>, events: seq<Event>, n: nat)
    requires IsRun(ss, events) && IsSqlRun(ts, events) && n <= |events|
    ensures AgreeUpTo(ss, ts, n) <==> forall m :: 0 <= m < n ==> Unambiguous(ss, events, m)
  {
    if n > 0 {
      StoresAgreeIff(ss, ts, events, n - 1);
      assert AgreeUpTo(ss, ts, n) <==> AgreeUpTo(ss, ts, n - 1) && ss[n].rows == ts[n];
      if AgreeUpTo(ss, ts, n - 1) {
        StoresAgreeNextIff(ss, ts, events, n - 1);
      } else {
        assert exists m :: 0 <= m < n - 1 && !Unambiguous(ss, events, m);
      }
    }
  }

  lemma StoresAgreeNextIff(ss: seq<Store>, ts: seq<Table>, events: seq<Event>, n: nat)
    requires IsRun(ss, events) && IsSqlRun(ts, events) && n < |events| && ss[n].rows == ts[n]
    ensures ss[n + 1].rows == ts[n + 1] <==> Unambiguous(ss, events, n)
  {
    IndexHolds(ss, events, n);
    assert Step(ss, events, n);
    AgreeingStep(ss[n], events[n]);
    assert ts[n + 1] == SqlNext(ts[n], events[n]);
  }

  /** Attempts of two mailboxes that bear one digest; confirming it consumes one row here and both rows there. */
  lemma SharedDigestSeparates(a: Attempt, b: Attempt, now: int)
    returns (ss: seq<Store>, ts: seq<Table>, events: seq<Event>)
    requires a.IsWellFormed() && b.IsWellFormed() && a.attemptId != b.attemptId && a.canonicalEmail != b.canonicalEmail
    requires a.Answers(b.tokenDigest, now) && b.Answers(a.tokenDigest, now)
    ensures events == [Saved(a, now), Saved(b, now), Confirmed(a.tokenDigest, now)]
    ensures IsRun(ss, events) && IsSqlRun(ts, events) && ss[3].rows != ts[3]
  {
    events := [Saved(a, now), Saved(b, now), Confirmed(a.tokenDigest, now)];
    var first := SaveOnly(a, now);
    var second := SaveNext(a, b, now);
    ss := [EMPTY_STORE, first, second, Next(second, events[2])];
    ts := [[], [a], [a, b], SqlConsume([a, b], a.tokenDigest, now)];
    assert Step(ss, events, 0) && Step(ss, events, 1) && Step(ss, events, 2);
    assert ts[1] == SqlNext(ts[0], events[0]) && ts[2] == SqlNext(ts[1], events[1]);
    assert [a, b][0].Answers(a.tokenDigest, now) && [a, b][1].Answers(a.tokenDigest, now);
    ConsumeAgreesWithSqlIff([a, b], a.tokenDigest, now);
  }

  lemma SharedDigestExample() returns (ss: seq<Store>, ts: seq<Table>, events: seq<Event>)
    ensures IsRun(ss, events) && IsSqlRun(ts, events) && |events| == 3 && ss[3].rows != ts[3]
  {
    var digest := seq(64, i => '7');
    var a := Attempt("attempt_a", "ann@example.org", digest, 10, 0, None, None);
    var b := Attempt("attempt_b", "bob@example.org", digest, 10, 0, None, None);
    assert '7' == HEX_DIGITS[7];
    assert a.attemptId[8] != b.attemptId[8] && a.canonicalEmail[0] != b.canonicalEmail[0];
    ss, ts, events := SharedDigestSeparates(a, b, 2);
  }

  lemma SaveOnly(a: Attempt, now: int) returns (s: Store)
    ensures s == Save(EMPTY_STORE, a, now) && s.rows == [a]
    ensures SqlSave([], a, now) == Some([a])
  {
    s := Save(EMPTY_STORE, a, now);
    assert InvalidateLive([], a.canonicalEmail, now) == [];
  }

  lemma SaveNext(a: Attempt, b: Attempt, now: int) returns (s: Store)
    requires a.canonicalEmail != b.canonicalEmail && a.attemptId != b.attemptId
    ensures s == Save(Save(EMPTY_STORE, a, now), b, now) && s.rows == [a, b]
    ensures SqlSave([a], b, now) == Some([a, b])
  {
    var first := SaveOnly(a, now);
    s := Save(first, b, now);
    assert InvalidateLive([a], b.canonicalEmail, now) == [a];
  }

  lemma {:induction false} BearingTwice(rows: Table, digest: string, i: nat, j: nat)
    requires i < j < |rows| && rows[i].tokenDigest == rows[j].tokenDigest == digest
    ensures Bearing(rows, digest) >= 2
  {
    if j < |rows| - 1 {
      BearingTwice(rows[..|rows| - 1], digest, i, j);
    } else {
      BearingOnce(rows[..|rows| - 1], digest, i);
    }
  }

  lemma {:induction false} BearingOnce(rows: Table, digest: string, i: nat)
    requires i < |rows| && rows[i].tokenDigest == digest
    ensures Bearing(rows, digest) >= 1
  {
    if i < |rows| - 1 {
      BearingOnce(rows[..|rows| - 1], digest, i);
    }
  }

  lemma {:induction false} SavedBearingGrows(events: seq<Event>, m: nat, n: nat, digest: string)
    requires m <= n <= |events|
    ensures SavedBearing(events, m, digest) <= SavedBearing(events, n, digest)
    decreases n
  {
    if m < n {
      SavedBearingGrows(events, m, n - 1, digest);
    }
  }

  /** Unique digests keep every confirmation unambiguous. */
  lemma StoresAgree(ss: seq<Store>, ts: seq<Table>, events: seq<Event>, n: nat)
    requires IsRun(ss, events) && IsSqlRun(ts, events) && n <= |events|
    requires forall digest :: SavedBearing(events, |events|, digest) <= 1
    ensures ss[n].rows == ts[n]
  {
    forall m | 0 <= m < n && events[m].Confirmed? ensures Unambiguous(ss, events, m) {
      var rows, digest, now := ss[m].rows, events[m].digest, events[m].now;
      CountsOverRun(ss, events, m, digest);
      SavedBearingGrows(events, m, |events|, digest);
      forall i, j | 0 <= i < j < |rows| ensures !(rows[i].Answers(digest, now) && rows[j].Answers(digest, now)) {
        if rows[i].Answers(digest, now) && rows[j].Answers(digest, now) {
          BearingTwice(rows, digest, i, j);
          assert false;
        }
      }
    }
    StoresAgreeIff(ss, ts, events, n);
  }
}
