/** The in-memory attempt store and the SQL repository, as objects updated in place. */
module AttemptStores {
  import opened Wrappers
  import opened Sequences
  import opened OrderedDicts
  import opened VerificationAttempts

  /** An attempt object: only its two timestamps ever change. */
  class VerificationAttempt {
    const attemptId: string
    const canonicalEmail: string
    const tokenDigest: string
    const expiresAt: int
    const createdAt: int
    var consumedAt: Option<int>
    var invalidatedAt: Option<int>

    ghost function Row(): Attempt
      reads this
    {
      Attempt(attemptId, canonicalEmail, tokenDigest, expiresAt, createdAt, consumedAt, invalidatedAt)
    }

    constructor (attemptId: string, canonicalEmail: string, tokenDigest: string, createdAt: int, expiresAt: int)
      requires createdAt < expiresAt
      ensures Row() == Attempt(attemptId, canonicalEmail, tokenDigest, expiresAt, createdAt, None, None)
    {
      this.attemptId, this.canonicalEmail, this.tokenDigest := attemptId, canonicalEmail, tokenDigest;
      this.expiresAt, this.createdAt := expiresAt, createdAt;
      consumedAt, invalidatedAt := None, None;
    }

    predicate Answers(digest: string, now: int)
      reads this
      ensures Answers(digest, now) == Row().Answers(digest, now)
    {
      tokenDigest == digest && consumedAt.None? && invalidatedAt.None? && !(now >= expiresAt)
    }
  }

  class InMemoryVerificationAttemptStore {
    var attemptsById: Dict<string, VerificationAttempt>
    var activeAttemptIdByEmail: map<string, string>

    ghost function Objects(): set<VerificationAttempt>
      reads this
    {
      attemptsById.at.Values
    }

    ghost function Rows(): Table
      reads this, Objects()
    {
      var d := attemptsById;
      seq(|d.keys|, i requires 0 <= i < |d.keys| reads d.at.Values => d.at[d.keys[i]].Row())
    }

    ghost function State(): Store
      reads this, Objects()
    {
      Store(Rows(), activeAttemptIdByEmail)
    }

    /** Every object is stored under its own id, and the index names stored objects. */
    ghost predicate Valid()
      reads this, Objects()
    {
      && (forall id :: id in attemptsById.at ==> attemptsById.at[id].attemptId == id)
      && (forall email :: email in activeAttemptIdByEmail ==> activeAttemptIdByEmail[email] in attemptsById.at)
    }

    constructor ()
      ensures Valid() && State() == EMPTY_STORE && IndexInv(State())
    {
      attemptsById := Empty();
      activeAttemptIdByEmail := map[];
      new;
      assert attemptsById.keys == [] by {
        assert Elems(attemptsById.keys) == {};
      }
      assert State() == EMPTY_STORE;
    }

    /** Invalidates the attempt the index names for the email, if there is one and it is live. */
    method InvalidateIndexed(email: string, now: int)
      requires Valid()
      modifies Objects()
      ensures Rows() == if email in activeAttemptIdByEmail
                        then InvalidateById(old(Rows()), activeAttemptIdByEmail[email], now)
                        else old(Rows())
      ensures forall a <- Objects() ::
                a.Row() == if email in activeAttemptIdByEmail && a.attemptId == activeAttemptIdByEmail[email]
                              && old(a.Row()).IsLive()
                           then old(a.Row()).(invalidatedAt := Some(now))
                           else old(a.Row())
    {
      if email in activeAttemptIdByEmail {
        var previousId := activeAttemptIdByEmail[email];
        var previous := attemptsById.at[previousId];
        if previous.consumedAt.None? && previous.invalidatedAt.None? {
          previous.invalidatedAt := Some(now);
        }
        assert Rows() == InvalidateById(old(Rows()), previousId, now);
      }
    }

    /**
     * Any attempt may be saved, one already stored under its id included. One under a new id does to the table what
     * the full scan does, and keeps the index pointing to the only live attempt of each email.
     */
    method SaveNewAttempt(attempt: VerificationAttempt, now: int)
      requires Valid()
      modifies this, Objects()
      ensures Valid()
      ensures State() == SaveOver(old(State()), attempt.Row(), now)
      ensures attempt !in old(Objects()) ==> attempt.Row() == old(attempt.Row())
      ensures attempt in old(Objects()) ==>
                attempt.Row() == if attempt.canonicalEmail in old(activeAttemptIdByEmail)
                                    && old(activeAttemptIdByEmail)[attempt.canonicalEmail] == attempt.attemptId
                                    && old(attempt.Row()).IsLive()
                                 then old(attempt.Row()).(invalidatedAt := Some(now))
                                 else old(attempt.Row())
      ensures old(IndexInv(State())) && attempt.attemptId !in old(attemptsById.at) ==>
                IndexInv(State()) && SqlSave(old(Rows()), old(attempt.Row()), now) == Some(Rows())
    {
      ghost var before, row, isNew := State(), attempt.Row(), attempt.attemptId !in attemptsById.at;
      RowsHoldIds(attempt.attemptId);
      InvalidateIndexed(attempt.canonicalEmail, now);
      StoreUnderId(attempt);
      assert State() == SaveOver(before, attempt.Row(), now);
      if isNew {
        SaveOverFresh(before, row, now);
        if IndexInv(before) {
          SaveRefinesSql(before, row, now);
          SaveKeepsIndex(before, row, now);
        }
      }
    }

    /** Stores an attempt under its id and points the index of its email to it. */
    method StoreUnderId(attempt: VerificationAttempt)
      requires Valid()
      modifies this
      ensures Valid()
      ensures Rows() == PutRow(old(Rows()), attempt.Row())
      ensures activeAttemptIdByEmail == old(activeAttemptIdByEmail)[attempt.canonicalEmail := attempt.attemptId]
    {
      ghost var before := Rows();
      RowsHoldIds(attempt.attemptId);
      attemptsById := Put(attemptsById, attempt.attemptId, attempt);
      activeAttemptIdByEmail := activeAttemptIdByEmail[attempt.canonicalEmail := attempt.attemptId];
      assert Rows() == PutRow(before, attempt.Row());
    }

    lemma RowsHoldIds(id: string)
      requires Valid()
      ensures HasId(Rows(), id) <==> id in attemptsById.at
    {
      var d := attemptsById;
      assert forall i :: 0 <= i < |Rows()| ==> d.keys[i] in d.at && Rows()[i].attemptId == d.keys[i];
      if id in d.at {
        assert id in Elems(d.keys);
        var i :| 0 <= i < |d.keys| && d.keys[i] == id;
        assert Rows()[i].attemptId == id;
      }
    }

    /** The scan that both operations below begin with: the first stored attempt that answers the digest. */
    method FirstAnswering(digest: string, now: int) returns (found: Option<nat>)
      requires Valid()
      ensures found == FirstAnswer(Rows(), digest, now)
    {
      var d := attemptsById;
      for k := 0 to |d.keys|
        invariant forall i :: 0 <= i < k ==> !Rows()[i].Answers(digest, now)
      {
        var attempt := d.at[d.keys[k]];
        assert Rows()[k] == attempt.Row();
        if attempt.Answers(digest, now) {
          return Some(k);
        }
      }
      return None;
    }

    method FindActiveByDigest(digest: string, now: int) returns (found: VerificationAttempt?)
      requires Valid()
      ensures found == null <==> Find(Rows(), digest, now).None?
      ensures found != null ==> found in Objects() && Find(Rows(), digest, now) == Some(found.Row())
    {
      var first := FirstAnswering(digest, now);
      if first.None? {
        return null;
      }
      found := attemptsById.at[attemptsById.keys[first.value]];
      assert Rows()[first.value] == found.Row();
    }

    method ConsumeEmailByDigest(digest: string, now: int) returns (email: Option<string>)
      requires Valid()
      modifies Objects()
      ensures Valid()
      ensures email == ConsumedEmail(old(Rows()), digest, now)
      ensures State() == old(State()).(rows := Consume(old(Rows()), digest, now))
      ensures old(IndexInv(State())) ==> IndexInv(State())
    {
      if IndexInv(State()) {
        ConsumeKeepsIndex(State(), digest, now);
      }
      var first := FirstAnswering(digest, now);
      if first.None? {
        return None;
      }
      MarkConsumed(first.value, now);
      assert State() == old(State()).(rows := Consume(old(Rows()), digest, now));
      return Some(attemptsById.at[attemptsById.keys[first.value]].canonicalEmail);
    }

    method MarkConsumed(k: nat, now: int)
      requires k < |attemptsById.keys| && forall id :: id in attemptsById.at ==> attemptsById.at[id].attemptId == id
      modifies Objects()
      ensures Rows() == old(Rows())[k := old(Rows())[k].(consumedAt := Some(now))]
    {
      var attempt := attemptsById.at[attemptsById.keys[k]];
      assert Rows()[k] == attempt.Row();
      attempt.consumedAt := Some(now);
      assert Rows() == old(Rows())[k := old(Rows())[k].(consumedAt := Some(now))];
    }
  }

  /** The SQL repository: the statements rewrite the table inside one transaction. */
  class PostgresAttemptRepository {
    var rows: Table

    constructor ()
      ensures rows == []
    {
      rows := [];
    }

    method SaveNewAttempt(attempt: Attempt, now: int) returns (saved: bool)
      modifies this
      ensures saved <==> !HasId(old(rows), attempt.attemptId)
      ensures rows == if saved then SqlSave(old(rows), attempt, now).value else old(rows)
    {
      if HasId(rows, attempt.attemptId) {
        return false;
      }
      rows := InvalidateLive(rows, attempt.canonicalEmail, now);
      rows := rows + [attempt];
      return true;
    }

    /** SQL leaves open which of several updated rows is returned first. */
    method ConsumeEmailByDigest(digest: string, now: int) returns (email: Option<string>)
      modifies this
      ensures |rows| == |old(rows)|
      ensures forall i :: 0 <= i < |rows| && !old(rows)[i].Answers(digest, now) ==> rows[i] == old(rows)[i]
      ensures forall i :: 0 <= i < |rows| && old(rows)[i].Answers(digest, now) ==>
                rows[i] == old(rows)[i].(consumedAt := Some(now))
      ensures forall i, later :: 0 <= i < |rows| && now <= later ==> !rows[i].Answers(digest, later)
      ensures email.None? <==> forall i :: 0 <= i < |rows| ==> !old(rows)[i].Answers(digest, now)
      ensures email.Some? ==>
                exists i :: 0 <= i < |rows| && old(rows)[i].Answers(digest, now)
                            && old(rows)[i].canonicalEmail == email.value
    {
      email := None;
      if i :| 0 <= i < |rows| && rows[i].Answers(digest, now) {
        email := Some(rows[i].canonicalEmail);
      }
      rows := SqlConsume(rows, digest, now);
    }
  }
}
