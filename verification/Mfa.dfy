/** The multi-factor state machine: enrolment, login challenges, recovery codes and the sessions they lead to.
    Each request is one transaction; it commits only if the tables' constraints hold of the outcome. */
module Mfa {
  import opened Text

  type Id = string
  type Digest = string

  const MAX_FAILURES := 5
  const DAY := 86_400

  datatype Enrolment = Enrolment(startedAt: int, expiresAt: int, enabledAt: Option<int>)
  datatype Challenge = Challenge(userId: Id, createdAt: int, expiresAt: int, consumedAt: Option<int>, failures: nat)
  datatype Code = Code(userId: Id, digest: Digest, createdAt: int, usedAt: Option<int>)
  datatype Session = Session(userId: Id, revokedAt: Option<int>)

  /** A completed login: the challenge, the recovery code if one was used, and the session. */
  datatype Login = Login(token: Digest, code: Option<Id>, session: Id)

  /** The tables, challenges by token digest, and the history of what was issued and completed. */
  datatype State = State(
    users: map<Id, bool>,
    enrolments: map<Id, Enrolment>,
    challenges: map<Digest, Challenge>,
    codes: map<Id, Code>,
    sessions: map<Id, Session>,
    tokensIssued: set<Digest>,
    codesIssued: set<Id>,
    logins: seq<Login>)

  predicate Enabled(s: State, userId: Id) {
    userId in s.enrolments && s.enrolments[userId].enabledAt.Some?
  }

  /** Still to be answered: neither consumed, nor expired, nor failed out. */
  predicate Live(c: Challenge, now: int) {
    c.consumedAt.None? && c.expiresAt > now && c.failures < MAX_FAILURES
  }

  function ConsumeAll(challenges: map<Digest, Challenge>, userId: Id, now: int): map<Digest, Challenge> {
    map t | t in challenges ::
      if challenges[t].userId == userId && challenges[t].consumedAt.None? then challenges[t].(consumedAt := Some(now))
      else challenges[t]
  }

  function RevokeOthers(sessions: map<Id, Session>, userId: Id, kept: Option<Id>, now: int): map<Id, Session> {
    map i | i in sessions ::
      if sessions[i].userId == userId && kept != Some(i) && sessions[i].revokedAt.None?
      then sessions[i].(revokedAt := Some(now)) else sessions[i]
  }

  function DropCodes(codes: map<Id, Code>, userId: Id): map<Id, Code> {
    map i | i in codes && codes[i].userId != userId :: codes[i]
  }

  /** A batch of new recovery codes: code ids and digests. */
  type Batch = map<Id, Digest>

  function InsertCodes(codes: map<Id, Code>, userId: Id, batch: Batch, now: int): map<Id, Code> {
    codes + map i | i in batch :: Code(userId, batch[i], now, None)
  }

  /** Unused code of the user with this digest; the digest is unique per user. */
  predicate Usable(codes: map<Id, Code>, userId: Id, digest: Digest, id: Id) {
    id in codes && codes[id].userId == userId && codes[id].digest == digest && codes[id].usedAt.None?
  }

  function UseCode(codes: map<Id, Code>, id: Id, now: int): map<Id, Code>
    requires id in codes
  {
    codes[id := codes[id].(usedAt := Some(now))]
  }

  predicate UniqueDigests(codes: map<Id, Code>) {
    forall i, j :: i in codes && j in codes && codes[i].userId == codes[j].userId && codes[i].digest == codes[j].digest ==>
      i == j
  }

  /** The constraints of the tables. The bound on failures is not among them: it is proved. */
  predicate Constraints(s: State) {
    && (forall u :: u in s.enrolments ==>
          var e := s.enrolments[u];
          u in s.users && e.expiresAt > e.startedAt && (e.enabledAt.Some? ==> e.enabledAt.value >= e.startedAt))
    && (forall i :: i in s.codes ==>
          s.codes[i].userId in s.enrolments && (s.codes[i].usedAt.Some? ==> s.codes[i].usedAt.value >= s.codes[i].createdAt))
    && UniqueDigests(s.codes)
    && (forall t :: t in s.challenges ==>
          var c := s.challenges[t];
          c.userId in s.users && c.expiresAt > c.createdAt && (c.consumedAt.Some? ==> c.consumedAt.value >= c.createdAt))
  }

  datatype Request =
    | AddUser(user: Id)
    | SetUser(user: Id, enabled: bool)
    | UpsertPending(user: Id, startedAt: int, expiresAt: int)
    | CreateChallenge(user: Id, token: Digest, now: int, expiresAt: int)
    | Fail(token: Digest, now: int)
    | Consume(token: Digest, code: Option<Id>, digest: Digest, now: int)
    | Complete(token: Digest, code: Option<Id>, digest: Digest, now: int, session: Id, sessionUser: Id)
    | Enable(user: Id, current: Id, batch: Batch, now: int)
    | ReplaceCodes(user: Id, current: Id, batch: Batch, now: int)
    | Disable(user: Id, current: Id, now: int)
    | Reset(user: Id, now: int)
    | DeleteExpired(now: int)

  predicate FreshBatch(s: State, batch: Batch) {
    batch.Keys !! s.codesIssued
  }

  /** The guards of a request: what its statements check before they change anything, and that random tokens and
      identifiers are new. */
  predicate Allowed(s: State, r: Request) {
    match r
    case AddUser(u) => u !in s.users
    case SetUser(u, _) => u in s.users
    case UpsertPending(u, _, _) => true
    case CreateChallenge(u, token, _, _) => Enabled(s, u) && token !in s.tokensIssued
    case Fail(token, now) => token in s.challenges && Live(s.challenges[token], now)
    case Consume(token, code, digest, now) =>
      && token in s.challenges && Live(s.challenges[token], now)
      && (code.Some? ==> Usable(s.codes, s.challenges[token].userId, digest, code.value))
    case Complete(token, code, digest, now, session, sessionUser) =>
      && token in s.challenges && s.challenges[token].userId == sessionUser
      && Live(s.challenges[token], now) && Enabled(s, sessionUser)
      && (code.Some? ==> Usable(s.codes, sessionUser, digest, code.value))
      && sessionUser in s.users && s.users[sessionUser] && session !in s.sessions
    case Enable(u, _, batch, now) =>
      u in s.enrolments && s.enrolments[u].enabledAt.None? && s.enrolments[u].expiresAt > now && FreshBatch(s, batch)
    case ReplaceCodes(u, _, batch, _) => Enabled(s, u) && FreshBatch(s, batch)
    case Disable(u, _, _) => Enabled(s, u)
    case Reset(u, _) => u in s.users
    case DeleteExpired(_) => true
  }

  /** What the statements of an allowed request leave. */
  function Effect(s: State, r: Request): State
    requires Allowed(s, r)
  {
    match r
    case AddUser(u) => s.(users := s.users[u := true])
    case SetUser(u, enabled) => s.(users := s.users[u := enabled])
    case UpsertPending(u, startedAt, expiresAt) =>
      if Enabled(s, u) then s else s.(enrolments := s.enrolments[u := Enrolment(startedAt, expiresAt, None)])
    case CreateChallenge(u, token, now, expiresAt) =>
      s.(challenges := ConsumeAll(s.challenges, u, now)[token := Challenge(u, now, expiresAt, None, 0)],
         tokensIssued := s.tokensIssued + {token})
    case Fail(token, now) =>
      var c := s.challenges[token];
      s.(challenges := s.challenges[token :=
        c.(failures := c.failures + 1, consumedAt := if c.failures + 1 >= MAX_FAILURES then Some(now) else c.consumedAt)])
    case Consume(token, code, _, now) =>
      s.(challenges := s.challenges[token := s.challenges[token].(consumedAt := Some(now))],
         codes := if code.Some? then UseCode(s.codes, code.value, now) else s.codes)
    case Complete(token, code, _, now, session, sessionUser) =>
      s.(challenges := s.challenges[token := s.challenges[token].(consumedAt := Some(now))],
         codes := if code.Some? then UseCode(s.codes, code.value, now) else s.codes,
         sessions := s.sessions[session := Session(sessionUser, None)],
         logins := s.logins + [Login(token, code, session)])
    case Enable(u, current, batch, now) =>
      s.(enrolments := s.enrolments[u := s.enrolments[u].(enabledAt := Some(now))],
         codes := InsertCodes(DropCodes(s.codes, u), u, batch, now),
         codesIssued := s.codesIssued + batch.Keys,
         sessions := RevokeOthers(s.sessions, u, Some(current), now),
         challenges := ConsumeAll(s.challenges, u, now))
    case ReplaceCodes(u, current, batch, now) =>
      s.(codes := InsertCodes(DropCodes(s.codes, u), u, batch, now),
         codesIssued := s.codesIssued + batch.Keys,
         sessions := RevokeOthers(s.sessions, u, Some(current), now))
    case Disable(u, current, now) =>
      s.(enrolments := s.enrolments - {u}, codes := DropCodes(s.codes, u),
         challenges := ConsumeAll(s.challenges, u, now), sessions := RevokeOthers(s.sessions, u, Some(current), now))
    case Reset(u, now) =>
      s.(enrolments := s.enrolments - {u}, codes := DropCodes(s.codes, u),
         challenges := ConsumeAll(s.challenges, u, now), sessions := RevokeOthers(s.sessions, u, None, now))
    case DeleteExpired(now) =>
      s.(challenges := map t | t in s.challenges && s.challenges[t].expiresAt > now
                            && !(s.challenges[t].consumedAt.Some? && s.challenges[t].consumedAt.value < now - DAY)
                       :: s.challenges[t])
  }

  /** One request: committed, or rolled back. */
  function Do(s: State, r: Request): State {
    if Allowed(s, r) && Constraints(Effect(s, r)) then Effect(s, r) else s
  }

  const EMPTY := State(map[], map[], map[], map[], map[], {}, {}, [])

  ghost function After(requests: seq<Request>, k: nat): State
    requires k <= |requests|
  {
    if k == 0 then EMPTY else Do(After(requests, k - 1), requests[k - 1])
  }

  // The invariant.

  ghost predicate Unconsumed(s: State, t: Digest) {
    t in s.challenges && s.challenges[t].consumedAt.None?
  }

  /** At most one unconsumed challenge per user, and only while MFA is enabled; the fifth failure consumes. */
  ghost predicate ChallengesInv(s: State) {
    && (forall t, t' :: Unconsumed(s, t) && Unconsumed(s, t') && s.challenges[t].userId == s.challenges[t'].userId ==> t == t')
    && (forall t :: Unconsumed(s, t) ==> Enabled(s, s.challenges[t].userId))
    && (forall t :: t in s.challenges ==>
          s.challenges[t].failures <= MAX_FAILURES
          && (s.challenges[t].failures == MAX_FAILURES ==> s.challenges[t].consumedAt.Some?))
  }

  ghost predicate HistoryInv(s: State) {
    && s.challenges.Keys <= s.tokensIssued && s.codes.Keys <= s.codesIssued
    && (forall l :: l in s.logins ==> LoginInv(s, l))
  }

  /** What completed a login stays issued and cannot be used again. */
  ghost predicate LoginInv(s: State, l: Login) {
    && l.token in s.tokensIssued && !Unconsumed(s, l.token)
    && (l.code.Some? ==> l.code.value in s.codesIssued && (l.code.value in s.codes ==> s.codes[l.code.value].usedAt.Some?))
  }

  ghost predicate OnceEach(logins: seq<Login>) {
    forall i, j :: 0 <= i < j < |logins| ==>
      logins[i].token != logins[j].token && (logins[i].code.Some? ==> logins[i].code != logins[j].code)
  }

  /** Failure counts are bounded, and a count that reached the bound belongs to a consumed challenge. */
  ghost predicate Bounded(c: Challenge) {
    c.failures <= MAX_FAILURES && (c.failures == MAX_FAILURES ==> c.consumedAt.Some?)
  }

  /** Steps that open no challenge and keep MFA enabled for the users whose challenges stay open. */
  lemma ChallengesFrame(s: State, s': State)
    requires ChallengesInv(s)
    requires forall t :: Unconsumed(s', t) ==>
               && Unconsumed(s, t) && s'.challenges[t].userId == s.challenges[t].userId
               && Enabled(s', s.challenges[t].userId)
    requires forall t :: t in s'.challenges ==> Bounded(s'.challenges[t])
    ensures ChallengesInv(s')
  {
  }

  lemma ConsumedAll(s: State, userId: Id, now: int)
    requires ChallengesInv(s)
    ensures var challenges := ConsumeAll(s.challenges, userId, now);
            && challenges.Keys == s.challenges.Keys
            && (forall t :: t in challenges ==> Bounded(challenges[t]) && challenges[t].userId == s.challenges[t].userId)
            && (forall t :: t in challenges && challenges[t].consumedAt.None? ==>
                  Unconsumed(s, t) && challenges[t].userId != userId)
  {
  }

  /** Requests that consume every challenge of one user. */
  lemma ConsumingStep(s: State, r: Request)
    requires ChallengesInv(s) && Allowed(s, r) && (r.Enable? || r.Disable? || r.Reset?)
    ensures ChallengesInv(Effect(s, r))
  {
    hide ConsumeAll, ChallengesInv, RevokeOthers, DropCodes, InsertCodes;
    ConsumedAll(s, r.user, r.now);
    EnabledAll(s);
    ChallengesFrame(s, Effect(s, r));
  }

  lemma EnabledAll(s: State)
    requires ChallengesInv(s)
    ensures forall t :: Unconsumed(s, t) ==> Enabled(s, s.challenges[t].userId)
    ensures forall t :: t in s.challenges ==> Bounded(s.challenges[t])
  {
  }

  lemma CreateStep(s: State, r: Request)
    requires ChallengesInv(s) && Allowed(s, r) && r.CreateChallenge?
    ensures ChallengesInv(Effect(s, r))
  {
    hide ConsumeAll;
    ConsumedAll(s, r.user, r.now);
  }

  /** Requests about one challenge. */
  lemma AnswerStep(s: State, r: Request)
    requires ChallengesInv(s) && Allowed(s, r) && (r.Fail? || r.Consume? || r.Complete?)
    ensures ChallengesInv(Effect(s, r))
  {
    hide ChallengesInv, UseCode;
    EnabledAll(s);
    ChallengesFrame(s, Effect(s, r));
  }

  lemma ChallengesStep(s: State, r: Request)
    requires ChallengesInv(s) && Allowed(s, r)
    ensures ChallengesInv(Effect(s, r))
  {
    if r.Enable? || r.Disable? || r.Reset? {
      hide *;
      ConsumingStep(s, r);
    } else if r.CreateChallenge? {
      hide *;
      CreateStep(s, r);
    } else if r.Fail? || r.Consume? || r.Complete? {
      hide *;
      AnswerStep(s, r);
    } else {
      hide ChallengesInv, RevokeOthers, DropCodes, InsertCodes;
      EnabledAll(s);
      ChallengesFrame(s, Effect(s, r));
    }
  }

  /** Steps that complete no login: issued stays issued, and what a login used stays used. */
  lemma HistoryFrame(s: State, s': State)
    requires HistoryInv(s) && s'.logins == s.logins
    requires s.tokensIssued <= s'.tokensIssued && s.codesIssued <= s'.codesIssued
    requires s'.challenges.Keys <= s'.tokensIssued && s'.codes.Keys <= s'.codesIssued
    requires forall t :: Unconsumed(s', t) ==> Unconsumed(s, t) || t !in s.tokensIssued
    requires forall i :: i in s'.codes ==> i !in s.codesIssued || (i in s.codes && (s'.codes[i].usedAt.None? ==> s.codes[i].usedAt.None?))
    ensures HistoryInv(s')
  {
    forall l | l in s'.logins
      ensures LoginInv(s', l)
    {
      assert LoginInv(s, l);
    }
  }

  lemma CompleteStep(s: State, r: Request)
    requires HistoryInv(s) && OnceEach(s.logins) && Allowed(s, r) && r.Complete?
    ensures HistoryInv(Effect(s, r)) && OnceEach(Effect(s, r).logins)
  {
    var s' := Effect(s, r);
    assert Unconsumed(s, r.token);
    forall l | l in s.logins
      ensures l.token != r.token && (l.code.Some? ==> l.code != r.code) && LoginInv(s', l)
    {
      assert LoginInv(s, l);
    }
    assert LoginInv(s', Login(r.token, r.code, r.session));
    forall i, j | 0 <= i < j < |s'.logins|
      ensures s'.logins[i].token != s'.logins[j].token && (s'.logins[i].code.Some? ==> s'.logins[i].code != s'.logins[j].code)
    {
      assert s'.logins[i] == s.logins[i];
    }
  }

  lemma HistoryStep(s: State, r: Request)
    requires HistoryInv(s) && OnceEach(s.logins) && Allowed(s, r)
    ensures HistoryInv(Effect(s, r)) && OnceEach(Effect(s, r).logins)
  {
    if r.Complete? {
      CompleteStep(s, r);
    } else {
      HistoryFrame(s, Effect(s, r));
    }
  }

  ghost predicate Inv(s: State) {
    ChallengesInv(s) && HistoryInv(s) && OnceEach(s.logins) && Constraints(s)
  }

  lemma {:induction false} InvHolds(requests: seq<Request>, k: nat)
    requires k <= |requests|
    ensures Inv(After(requests, k))
  {
    if k == 0 {
      assert Constraints(EMPTY);
    } else {
      hide Effect, Allowed, Constraints, ChallengesInv, HistoryInv, OnceEach;
      InvHolds(requests, k - 1);
      var s, r := After(requests, k - 1), requests[k - 1];
      if Allowed(s, r) {
        ChallengesStep(s, r);
        HistoryStep(s, r);
      }
    }
  }

  /** After every sequence of requests: one open challenge per user at most, only while MFA is enabled, never more
      than five failures, and the fifth consumes. */
  lemma OneOpenChallenge(requests: seq<Request>, k: nat, t: Digest, t': Digest)
    requires k <= |requests| && t in After(requests, k).challenges
    ensures var s := After(requests, k);
            && s.challenges[t].failures <= MAX_FAILURES
            && (s.challenges[t].failures == MAX_FAILURES ==> s.challenges[t].consumedAt.Some?)
            && (s.challenges[t].consumedAt.None? ==> Enabled(s, s.challenges[t].userId))
            && (t' in s.challenges && s.challenges[t'].userId == s.challenges[t].userId ==>
                  s.challenges[t].consumedAt.None? && s.challenges[t'].consumedAt.None? ==> t == t')
  {
    hide After;
    InvHolds(requests, k);
    var s := After(requests, k);
    assert Unconsumed(s, t) <==> s.challenges[t].consumedAt.None?;
    assert t' in s.challenges ==> (Unconsumed(s, t') <==> s.challenges[t'].consumedAt.None?);
  }

  /** After every sequence of requests each challenge, and each recovery code, has led to one session at most. */
  lemma OneSessionEach(requests: seq<Request>, k: nat, i: nat, j: nat)
    requires k <= |requests| && i < |After(requests, k).logins| && j < |After(requests, k).logins|
    ensures var logins := After(requests, k).logins;
            && (logins[i].token == logins[j].token ==> i == j)
            && (logins[i].code.Some? && logins[i].code == logins[j].code ==> i == j)
  {
    hide After;
    InvHolds(requests, k);
  }

  /** A token that was issued and is not open any more. */
  ghost predicate Spent(s: State, t: Digest) {
    t in s.tokensIssued && !Unconsumed(s, t)
  }

  lemma SpentStep(s: State, r: Request, t: Digest)
    requires Spent(s, t)
    ensures Spent(Do(s, r), t)
    ensures forall l :: l in Do(s, r).logins && l.token == t ==> l in s.logins
  {
    hide Constraints, RevokeOthers, InsertCodes, DropCodes, UseCode;
  }

  /** Once consumed, by an answer, a newer challenge, a disable or a reset, a challenge never opens again and never
      leads to another session. */
  lemma {:induction false} SpentForever(requests: seq<Request>, j: nat, k: nat, t: Digest)
    requires j <= k <= |requests| && Spent(After(requests, j), t)
    ensures Spent(After(requests, k), t)
    ensures forall l :: l in After(requests, k).logins && l.token == t ==> l in After(requests, j).logins
  {
    if j < k {
      hide Do;
      SpentForever(requests, j, k - 1, t);
      SpentStep(After(requests, k - 1), requests[k - 1], t);
    }
  }

  // What each request leaves, in terms of who may do what afterwards.

  /** The request is allowed, and its outcome meets the constraints. */
  ghost predicate Commits(s: State, r: Request) {
    Allowed(s, r) && Constraints(Effect(s, r))
  }

  predicate Alive(s: State, i: Id) {
    i in s.sessions && s.sessions[i].revokedAt.None?
  }

  /** Enabling, replacing codes and disabling end every other session of the user and touch no other. */
  lemma OthersSignedOut(s: State, r: Request, i: Id)
    requires Commits(s, r) && (r.Enable? || r.ReplaceCodes? || r.Disable?) && i in s.sessions
    ensures var s' := Do(s, r);
            && s'.sessions.Keys == s.sessions.Keys
            && (if s.sessions[i].userId == r.user && i != r.current then !Alive(s', i) else s'.sessions[i] == s.sessions[i])
  {
    hide Constraints, ConsumeAll, DropCodes, InsertCodes;
  }

  /** A reset ends every session of the user and touches no other. */
  lemma EveryoneSignedOut(s: State, r: Request, i: Id)
    requires Commits(s, r) && r.Reset? && i in s.sessions
    ensures var s' := Do(s, r);
            && s'.sessions.Keys == s.sessions.Keys
            && (if s.sessions[i].userId == r.user then !Alive(s', i) else s'.sessions[i] == s.sessions[i])
  {
    hide Constraints, ConsumeAll, DropCodes;
  }

  lemma RevokedStep(s: State, r: Request, i: Id)
    requires i in s.sessions
    ensures i in Do(s, r).sessions && Do(s, r).sessions[i].userId == s.sessions[i].userId
    ensures Alive(Do(s, r), i) ==> Alive(s, i)
  {
    hide Constraints, ConsumeAll, DropCodes, InsertCodes, UseCode;
  }

  /** A revoked session is never alive again, and a session never changes hands. */
  lemma {:induction false} RevokedForever(requests: seq<Request>, j: nat, k: nat, i: Id)
    requires j <= k <= |requests| && i in After(requests, j).sessions
    ensures i in After(requests, k).sessions
    ensures After(requests, k).sessions[i].userId == After(requests, j).sessions[i].userId
    ensures Alive(After(requests, k), i) ==> Alive(After(requests, j), i)
  {
    if j < k {
      hide Do, Alive;
      RevokedForever(requests, j, k - 1, i);
      RevokedStep(After(requests, k - 1), requests[k - 1], i);
    }
  }

  /** No session of a user that existed before a committed reset is alive at any time after it. */
  lemma ResetEndsSessions(requests: seq<Request>, j: nat, k: nat, i: Id)
    requires j < k <= |requests| && requests[j].Reset? && Commits(After(requests, j), requests[j])
    requires i in After(requests, j).sessions && After(requests, j).sessions[i].userId == requests[j].user
    ensures !Alive(After(requests, k), i)
  {
    hide Do, Commits, Alive;
    EveryoneSignedOut(After(requests, j), requests[j], i);
    assert After(requests, j + 1) == Do(After(requests, j), requests[j]);
    RevokedForever(requests, j + 1, k, i);
  }

  /** After enabling or replacing, the user's usable codes are exactly those of the new batch, and nobody else's change. */
  lemma OnlyNewCodes(s: State, r: Request, i: Id)
    requires Commits(s, r) && (r.Enable? || r.ReplaceCodes?)
    ensures var s' := Do(s, r);
            && (i in s'.codes && s'.codes[i].userId == r.user <==> i in r.batch)
            && (i in r.batch ==> Usable(s'.codes, r.user, r.batch[i], i))
            && (i !in r.batch ==> (i in s'.codes <==> i in s.codes && s.codes[i].userId != r.user))
            && (i !in r.batch && i in s'.codes ==> s'.codes[i] == s.codes[i])
  {
    hide Constraints, ConsumeAll, RevokeOthers;
  }

  /** After disabling or a reset the user has no enrolment, no code and no open challenge; nobody else loses any. */
  lemma NothingLeft(s: State, r: Request, u: Id, i: Id, t: Digest)
    requires Commits(s, r) && (r.Disable? || r.Reset?)
    ensures var s' := Do(s, r);
            && (u in s'.enrolments <==> u in s.enrolments && u != r.user)
            && (u in s'.enrolments ==> s'.enrolments[u] == s.enrolments[u])
            && (i in s'.codes <==> i in s.codes && s.codes[i].userId != r.user)
            && (i in s'.codes ==> s'.codes[i] == s.codes[i])
            && (Unconsumed(s', t) <==> Unconsumed(s, t) && s.challenges[t].userId != r.user)
            && (Unconsumed(s', t) ==> s'.challenges[t] == s.challenges[t])
  {
    hide Constraints, RevokeOthers;
  }

  /** An enrolment is enabled only by a committed Enable before it expires, and stays as it is until disabled or reset. */
  lemma EnrolmentStep(s: State, r: Request, u: Id)
    ensures Enabled(Do(s, r), u) && !Enabled(s, u) ==>
              r.Enable? && r.user == u && u in s.enrolments && s.enrolments[u].expiresAt > r.now
    ensures Commits(s, r) && r.Enable? ==> Enabled(Do(s, r), r.user)
    ensures Enabled(s, u) && !Enabled(Do(s, r), u) ==> (r.Disable? || r.Reset?) && r.user == u
    ensures Enabled(s, u) && Enabled(Do(s, r), u) ==> Do(s, r).enrolments[u] == s.enrolments[u]
    ensures Commits(s, r) && r.UpsertPending? && !Enabled(s, r.user) ==>
              Do(s, r).enrolments.Keys == s.enrolments.Keys + {r.user}
              && Do(s, r).enrolments[r.user] == Enrolment(r.startedAt, r.expiresAt, None)
  {
    hide Constraints, ConsumeAll, DropCodes, InsertCodes, RevokeOthers, UseCode;
  }

  /** A new challenge is the user's only open one, and answerable until it expires. */
  lemma NewChallengeOpen(s: State, r: Request, t: Digest, now: int)
    requires Commits(s, r) && r.CreateChallenge?
    ensures var s' := Do(s, r);
            && Unconsumed(s', r.token) && s'.challenges[r.token].userId == r.user
            && (Live(s'.challenges[r.token], now) <==> now < r.expiresAt)
            && (t != r.token ==> (Unconsumed(s', t) <==> Unconsumed(s, t) && s.challenges[t].userId != r.user))
  {
    hide Constraints;
  }

  /** A wrong answer counts against the one challenge; the fifth closes it and the first four do not. */
  lemma FailureCounts(s: State, r: Request, t: Digest)
    requires Commits(s, r) && r.Fail?
    ensures var s' := Do(s, r);
            && s'.challenges.Keys == s.challenges.Keys
            && s'.challenges[r.token].failures == s.challenges[r.token].failures + 1
            && (Unconsumed(s', r.token) <==> s'.challenges[r.token].failures < MAX_FAILURES)
            && (t in s.challenges && t != r.token ==> s'.challenges[t] == s.challenges[t])
  {
    hide Constraints;
  }

  /** A login needs a live challenge of an enabled user with MFA enabled; it uses up challenge and code, and gives that
      user one new session. */
  lemma LoginCompletes(s: State, r: Request, t: Digest, i: Id)
    requires Commits(s, r) && r.Complete?
    ensures r.token in s.challenges && Live(s.challenges[r.token], r.now) && s.challenges[r.token].userId == r.sessionUser
    ensures Enabled(s, r.sessionUser) && r.sessionUser in s.users && s.users[r.sessionUser]
    ensures r.code.Some? ==> Usable(s.codes, r.sessionUser, r.digest, r.code.value)
    ensures var s' := Do(s, r);
            && !Unconsumed(s', r.token) && (t != r.token ==> (Unconsumed(s', t) <==> Unconsumed(s, t)))
            && s'.codes.Keys == s.codes.Keys
            && (i in s.codes ==> (s'.codes[i].usedAt.Some? <==> s.codes[i].usedAt.Some? || r.code == Some(i)))
            && r.session !in s.sessions && Alive(s', r.session) && s'.sessions[r.session].userId == r.sessionUser
            && s'.sessions.Keys == s.sessions.Keys + {r.session}
            && s'.logins == s.logins + [Login(r.token, r.code, r.session)]
  {
    hide Constraints;
  }

  /** Cleaning up removes expired challenges and those consumed over a day ago, and changes no other. */
  lemma CleanupExact(s: State, r: Request, t: Digest)
    requires Commits(s, r) && r.DeleteExpired?
    ensures var s' := Do(s, r);
            && (t in s'.challenges <==>
                  && t in s.challenges && s.challenges[t].expiresAt > r.now
                  && (s.challenges[t].consumedAt.Some? ==> s.challenges[t].consumedAt.value >= r.now - DAY))
            && (t in s'.challenges ==> s'.challenges[t] == s.challenges[t])
  {
    hide Constraints;
  }

  /** Using up a challenge without a login uses up the code with it, and nothing else. */
  lemma ConsumptionExact(s: State, r: Request, t: Digest, i: Id)
    requires Commits(s, r) && r.Consume?
    ensures r.token in s.challenges && Live(s.challenges[r.token], r.now)
    ensures r.code.Some? ==> Usable(s.codes, s.challenges[r.token].userId, r.digest, r.code.value)
    ensures var s' := Do(s, r);
            && !Unconsumed(s', r.token) && (t != r.token ==> (Unconsumed(s', t) <==> Unconsumed(s, t)))
            && s'.codes.Keys == s.codes.Keys
            && (i in s.codes ==> (s'.codes[i].usedAt.Some? <==> s.codes[i].usedAt.Some? || r.code == Some(i)))
            && s'.sessions == s.sessions && s'.logins == s.logins
  {
    hide Constraints;
  }

  // Nothing is locked out: the requests of a regular login and of an enrolment commit.

  lemma ChallengePossible(s: State, u: Id, token: Digest, now: int, expiresAt: int)
    requires Inv(s) && Enabled(s, u) && token !in s.tokensIssued && now < expiresAt
    requires forall t :: Unconsumed(s, t) && s.challenges[t].userId == u ==> s.challenges[t].createdAt <= now
    ensures Commits(s, CreateChallenge(u, token, now, expiresAt))
  {
  }

  lemma CompletionPossible(s: State, u: Id, token: Digest, now: int, session: Id)
    requires Inv(s) && Enabled(s, u) && s.users[u] && session !in s.sessions
    requires token in s.challenges && s.challenges[token].userId == u && Live(s.challenges[token], now)
    requires s.challenges[token].createdAt <= now
    ensures Commits(s, Complete(token, None, "", now, session, u))
  {
  }

  /** An enabled user with MFA enabled can log in: a new challenge, answered in time, leads to a session. */
  lemma LoginPossible(s: State, u: Id, token: Digest, now: int, expiresAt: int, session: Id)
    requires Inv(s) && Enabled(s, u) && s.users[u] && token !in s.tokensIssued && now < expiresAt && session !in s.sessions
    requires forall t :: Unconsumed(s, t) && s.challenges[t].userId == u ==> s.challenges[t].createdAt <= now
    ensures var s' := Do(s, CreateChallenge(u, token, now, expiresAt));
            Alive(Do(s', Complete(token, None, "", now, session, u)), session)
  {
    hide Constraints, ConsumeAll, ChallengesInv, HistoryInv, OnceEach;
    var create := CreateChallenge(u, token, now, expiresAt);
    ChallengePossible(s, u, token, now, expiresAt);
    ChallengesStep(s, create);
    HistoryStep(s, create);
    CompletionPossible(Do(s, create), u, token, now, session);
  }

  /** Two batches of digests never collide within a user when they are distinct. */
  ghost predicate DistinctDigests(batch: Batch) {
    forall i, j :: i in batch && j in batch && batch[i] == batch[j] ==> i == j
  }

  /** A user without MFA can enrol: a pending enrolment, confirmed in time, is enabled. */
  lemma EnrolmentPossible(s: State, u: Id, startedAt: int, expiresAt: int, current: Id, batch: Batch, now: int)
    requires Inv(s) && u in s.users && !Enabled(s, u) && startedAt <= now < expiresAt
    requires FreshBatch(s, batch) && DistinctDigests(batch)
    ensures Enabled(Do(Do(s, UpsertPending(u, startedAt, expiresAt)), Enable(u, current, batch, now)), u)
  {
    var pending, enable := UpsertPending(u, startedAt, expiresAt), Enable(u, current, batch, now);
    UpsertPossible(s, u, startedAt, expiresAt);
    var s' := Do(s, pending);
    ChallengesStep(s, pending);
    EnablePossible(s', u, current, batch, now);
  }

  lemma UpsertPossible(s: State, u: Id, startedAt: int, expiresAt: int)
    requires Inv(s) && u in s.users && !Enabled(s, u) && startedAt < expiresAt
    ensures Commits(s, UpsertPending(u, startedAt, expiresAt))
  {
  }

  lemma NothingToConsume(s: State, u: Id, now: int)
    requires ChallengesInv(s) && !Enabled(s, u)
    ensures ConsumeAll(s.challenges, u, now) == s.challenges
  {
    assert forall t :: Unconsumed(s, t) ==> s.challenges[t].userId != u;
  }

  lemma BatchFits(codes: map<Id, Code>, u: Id, batch: Batch, now: int)
    requires UniqueDigests(codes) && DistinctDigests(batch)
    ensures var next := InsertCodes(DropCodes(codes, u), u, batch, now);
            && UniqueDigests(next)
            && forall i :: i in next ==> if i in batch then next[i] == Code(u, batch[i], now, None) else i in codes && next[i] == codes[i]
  {
  }

  lemma EnablePossible(s: State, u: Id, current: Id, batch: Batch, now: int)
    requires ChallengesInv(s) && Constraints(s) && u in s.enrolments && s.enrolments[u].enabledAt.None?
    requires s.enrolments[u].startedAt <= now < s.enrolments[u].expiresAt && FreshBatch(s, batch) && DistinctDigests(batch)
    ensures Commits(s, Enable(u, current, batch, now))
  {
    hide RevokeOthers, ConsumeAll, InsertCodes, DropCodes, UniqueDigests, ChallengesInv, DistinctDigests;
    NothingToConsume(s, u, now);
    BatchFits(s.codes, u, batch, now);
  }
}
