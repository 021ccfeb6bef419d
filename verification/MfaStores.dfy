/** The multi-factor transactions as statements on tables, each committed or rolled back as a whole. */
module MfaStores {
  import opened Text
  import opened Mfa

  class MfaStore {
    var users: map<Id, bool>
    var enrolments: map<Id, Enrolment>
    var challenges: map<Digest, Challenge>
    var codes: map<Id, Code>
    var sessions: map<Id, Session>
    // History, kept to state what was issued and completed.
    var tokensIssued: set<Digest>
    var codesIssued: set<Id>
    var logins: seq<Login>

    function Value(): State
      reads this
    {
      State(users, enrolments, challenges, codes, sessions, tokensIssued, codesIssued, logins)
    }

    constructor ()
      ensures Value() == EMPTY
    {
      users, enrolments, challenges, codes, sessions := map[], map[], map[], map[], map[];
      tokensIssued, codesIssued, logins := {}, {}, [];
    }

    method Rollback(before: State)
      modifies this
      ensures Value() == before
    {
      users, enrolments, challenges, codes := before.users, before.enrolments, before.challenges, before.codes;
      sessions, tokensIssued, codesIssued := before.sessions, before.tokensIssued, before.codesIssued;
      logins := before.logins;
    }

    /** Commits unless a constraint is violated. */
    method Commit(before: State) returns (ok: bool)
      modifies this
      ensures ok <==> Constraints(old(Value()))
      ensures Value() == if ok then old(Value()) else before
    {
      ok := Constraints(Value());
      if !ok {
        Rollback(before);
      }
    }

    method UpsertPendingMfa(userId: Id, startedAt: int, expiresAt: int) returns (ok: bool)
      modifies this
      ensures ok <==> Commits(old(Value()), UpsertPending(userId, startedAt, expiresAt))
      ensures Value() == Do(old(Value()), UpsertPending(userId, startedAt, expiresAt))
    {
      hide Constraints;
      var before := Value();
      if userId !in enrolments || enrolments[userId].enabledAt.None? {
        enrolments := enrolments[userId := Enrolment(startedAt, expiresAt, None)];
      }
      ok := Commit(before);
    }

    method CreateMfaChallenge(userId: Id, token: Digest, now: int, expiresAt: int) returns (ok: bool)
      requires token !in tokensIssued
      modifies this
      ensures ok <==> Commits(old(Value()), CreateChallenge(userId, token, now, expiresAt))
      ensures Value() == Do(old(Value()), CreateChallenge(userId, token, now, expiresAt))
    {
      hide Constraints, ConsumeAll;
      var before := Value();
      if !(userId in enrolments && enrolments[userId].enabledAt.Some?) {
        return false;
      }
      challenges := ConsumeAll(challenges, userId, now);
      challenges := challenges[token := Challenge(userId, now, expiresAt, None, 0)];
      tokensIssued := tokensIssued + {token};
      ok := Commit(before);
    }

    method FailMfaChallenge(token: Digest, now: int) returns (ok: bool)
      modifies this
      ensures ok <==> Commits(old(Value()), Fail(token, now))
      ensures Value() == Do(old(Value()), Fail(token, now))
    {
      hide Constraints;
      var before := Value();
      if !(token in challenges && Live(challenges[token], now)) {
        return false;
      }
      var c := challenges[token];
      var consumedAt := c.consumedAt;
      if c.failures + 1 >= MAX_FAILURES {
        consumedAt := Some(now);
      }
      challenges := challenges[token := c.(failures := c.failures + 1, consumedAt := consumedAt)];
      ok := Commit(before);
    }

    /** Marks the user's unused code with this digest as used; None unless exactly one row is affected. */
    method UseRecoveryCode(userId: Id, digest: Digest, now: int) returns (code: Option<Id>)
      modifies this`codes
      ensures if code.Some? then Usable(old(codes), userId, digest, code.value)
                                 && codes == UseCode(old(codes), code.value, now)
              else codes == old(codes)
      ensures UniqueDigests(old(codes)) && code.None? ==> forall i :: !Usable(codes, userId, digest, i)
    {
      var rows := set i | i in codes && codes[i].userId == userId && codes[i].digest == digest && codes[i].usedAt.None?;
      if rows == {} {
        assert forall i :: Usable(codes, userId, digest, i) ==> i in rows;
        return None;
      }
      var i :| i in rows;
      if rows != {i} {
        ghost var j :| j in rows && j != i;
        assert Usable(codes, userId, digest, i) && Usable(codes, userId, digest, j);
        return None;
      }
      codes := codes[i := codes[i].(usedAt := Some(now))];
      code := Some(i);
    }

    /** Consumes a challenge, with a recovery code if a digest is given. */
    method ConsumeMfaChallenge(token: Digest, recovery: Option<Digest>, now: int) returns (ok: bool, code: Option<Id>)
      requires Constraints(Value())
      modifies this
      ensures ok ==> (code.Some? <==> recovery.Some?) && Commits(old(Value()), Consume(token, code, DigestOf(recovery), now))
      ensures Value() == if ok then Do(old(Value()), Consume(token, code, DigestOf(recovery), now)) else old(Value())
      ensures !ok ==> forall c: Option<Id> :: (c.Some? <==> recovery.Some?) ==>
                !Commits(old(Value()), Consume(token, c, DigestOf(recovery), now))
    {
      hide Constraints, UseCode, UniqueDigests;
      DigestsUnique(Value());
      var before := Value();
      code := None;
      if !(token in challenges && Live(challenges[token], now)) {
        return false, None;
      }
      challenges := challenges[token := challenges[token].(consumedAt := Some(now))];
      if recovery.Some? {
        code := UseRecoveryCode(challenges[token].userId, recovery.value, now);
        if code.None? {
          Rollback(before);
          return false, None;
        }
      }
      ok := Commit(before);
    }

    /** Consumes a challenge and creates the session, in one transaction. */
    method CompleteMfaChallenge(token: Digest, recovery: Option<Digest>, now: int, session: Id, sessionUser: Id)
      returns (ok: bool, code: Option<Id>)
      requires Constraints(Value())
      modifies this
      ensures ok ==>
                && (code.Some? <==> recovery.Some?)
                && Commits(old(Value()), Complete(token, code, DigestOf(recovery), now, session, sessionUser))
      ensures Value() ==
              if ok then Do(old(Value()), Complete(token, code, DigestOf(recovery), now, session, sessionUser))
              else old(Value())
      ensures !ok ==> forall c: Option<Id> :: (c.Some? <==> recovery.Some?) ==>
                !Commits(old(Value()), Complete(token, c, DigestOf(recovery), now, session, sessionUser))
    {
      hide Constraints, UseCode, UniqueDigests;
      DigestsUnique(Value());
      var before := Value();
      code := None;
      if token !in challenges || challenges[token].userId != sessionUser {
        return false, None;
      }
      if !(Live(challenges[token], now) && sessionUser in enrolments && enrolments[sessionUser].enabledAt.Some?) {
        return false, None;
      }
      challenges := challenges[token := challenges[token].(consumedAt := Some(now))];
      if recovery.Some? {
        code := UseRecoveryCode(sessionUser, recovery.value, now);
        if code.None? {
          Rollback(before);
          return false, None;
        }
      }
      if sessionUser !in users || !users[sessionUser] || session in sessions {
        Rollback(before);
        return false, None;
      }
      sessions := sessions[session := Session(sessionUser, None)];
      logins := logins + [Login(token, code, session)];
      ok := Commit(before);
    }

    method EnableMfa(userId: Id, current: Id, batch: Batch, now: int) returns (ok: bool)
      requires FreshBatch(Value(), batch)
      modifies this
      ensures ok <==> Commits(old(Value()), Enable(userId, current, batch, now))
      ensures Value() == Do(old(Value()), Enable(userId, current, batch, now))
    {
      hide Constraints, DropCodes, InsertCodes, RevokeOthers, ConsumeAll;
      var before := Value();
      if !(userId in enrolments && enrolments[userId].enabledAt.None? && enrolments[userId].expiresAt > now) {
        return false;
      }
      enrolments := enrolments[userId := enrolments[userId].(enabledAt := Some(now))];
      codes := DropCodes(codes, userId);
      codes := InsertCodes(codes, userId, batch, now);
      codesIssued := codesIssued + batch.Keys;
      sessions := RevokeOthers(sessions, userId, Some(current), now);
      challenges := ConsumeAll(challenges, userId, now);
      ok := Commit(before);
    }

    method ReplaceRecoveryCodes(userId: Id, current: Id, batch: Batch, now: int) returns (ok: bool)
      requires FreshBatch(Value(), batch)
      modifies this
      ensures ok <==> Commits(old(Value()), ReplaceCodes(userId, current, batch, now))
      ensures Value() == Do(old(Value()), ReplaceCodes(userId, current, batch, now))
    {
      hide Constraints, DropCodes, InsertCodes, RevokeOthers;
      var before := Value();
      if !(userId in enrolments && enrolments[userId].enabledAt.Some?) {
        return false;
      }
      codes := DropCodes(codes, userId);
      codes := InsertCodes(codes, userId, batch, now);
      codesIssued := codesIssued + batch.Keys;
      sessions := RevokeOthers(sessions, userId, Some(current), now);
      ok := Commit(before);
    }

    /** Deleting the enrolment deletes its codes with it. */
    method DisableMfa(userId: Id, current: Id, now: int) returns (ok: bool)
      modifies this
      ensures ok <==> Commits(old(Value()), Disable(userId, current, now))
      ensures Value() == Do(old(Value()), Disable(userId, current, now))
    {
      hide Constraints, DropCodes, RevokeOthers, ConsumeAll;
      var before := Value();
      if !(userId in enrolments && enrolments[userId].enabledAt.Some?) {
        return false;
      }
      enrolments, codes := enrolments - {userId}, DropCodes(codes, userId);
      challenges := ConsumeAll(challenges, userId, now);
      sessions := RevokeOthers(sessions, userId, Some(current), now);
      ok := Commit(before);
    }

    method ResetMfaFromHost(userId: Id, now: int) returns (ok: bool)
      modifies this
      ensures ok <==> Commits(old(Value()), Reset(userId, now))
      ensures Value() == Do(old(Value()), Reset(userId, now))
    {
      hide Constraints, DropCodes, RevokeOthers, ConsumeAll;
      var before := Value();
      if userId !in users {
        return false;
      }
      enrolments, codes := enrolments - {userId}, DropCodes(codes, userId);
      challenges := ConsumeAll(challenges, userId, now);
      sessions := RevokeOthers(sessions, userId, None, now);
      ok := Commit(before);
    }

    method DeleteExpiredMfaChallenges(now: int) returns (ok: bool)
      modifies this
      ensures ok <==> Commits(old(Value()), DeleteExpired(now))
      ensures Value() == Do(old(Value()), DeleteExpired(now))
    {
      hide Constraints;
      var before := Value();
      challenges := map t | t in challenges && challenges[t].expiresAt > now
                         && !(challenges[t].consumedAt.Some? && challenges[t].consumedAt.value < now - DAY)
                    :: challenges[t];
      assert challenges == Effect(before, DeleteExpired(now)).challenges;
      ok := Commit(before);
    }
  }

  lemma DigestsUnique(s: State)
    requires Constraints(s)
    ensures UniqueDigests(s.codes)
  {
  }

  function DigestOf(recovery: Option<Digest>): Digest {
    if recovery.Some? then recovery.value else ""
  }
}
