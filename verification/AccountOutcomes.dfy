/** What the operations on accounts and sessions answer, and what they leave behind, said in terms
    of the rows as they stood before the call. */
module AccountOutcomes {
  import opened Basics
  import opened AuthTables
  import opened AuthMachine
  import opened AuthInvariant
  import opened AuthOperations
  import opened ActionTokens
  import opened RefreshRetry
  import opened SessionLimits
  import opened RefreshOutcomes

  // ---------- Access ----------

  // The session of a stored access token, not closed, of an active account.
  predicate IsHeld(st: Auth, digest: Id, session: Id, account: Id) {
    && digest in st.access && st.access[digest].session == session
    && session in st.sessions && st.sessions[session].account == account && st.sessions[session].revokedAt == None
    && account in st.accounts && st.accounts[account].status == Active
  }

  // Whoever presents a token is that account in that session exactly when the token is stored and
  // unexpired, and its session is open, unexpired and of an active account; the answer "expired"
  // differs from it in the times alone.
  lemma AccessAnswers(st: Auth, digest: Id, now: int, account: Id, session: Id)
    ensures var o := Authenticate(st, digest, now);
            && (o == Authenticated(account, session) <==>
                  && IsHeld(st, digest, session, account)
                  && now < st.access[digest].expiresAt && now < st.sessions[session].expiresAt)
            && (IsHeld(st, digest, session, account) ==>
                  (o == AccessExpired <==> st.access[digest].expiresAt <= now || st.sessions[session].expiresAt <= now))
            && (o == AccessInvalid <==> !exists s, a :: IsHeld(st, digest, s, a))
  {
    if digest in st.access && st.access[digest].session in st.sessions {
      var s := st.access[digest].session;
      assert Authenticate(st, digest, now) != AccessInvalid ==> IsHeld(st, digest, s, st.sessions[s].account);
    }
  }

  // ---------- Closing sessions ----------

  // Sessions of which these, if they were open, are closed now.
  ghost predicate Closes(before: map<Id, Session>, after: map<Id, Session>, ids: set<Id>, now: int) {
    && after.Keys == before.Keys
    && forall s :: s in before ==>
         after[s] == if s in ids && before[s].revokedAt == None then before[s].(revokedAt := Some(now)) else before[s]
  }

  // A logout closes the session of the token and nothing else.
  lemma LogoutEffect(st: Auth, digest: Id, now: int)
    ensures var after := Logout(st, digest, now);
            && after == st.(sessions := after.sessions)
            && Closes(st.sessions, after.sessions,
                      (set s | s in st.sessions && digest in st.access && st.access[digest].session == s), now)
  {
  }

  // A change of status is written to the account; unless it becomes active its sessions close.
  lemma StatusEffect(st: Auth, account: Id, status: Status, now: int)
    ensures var after := SetStatus(st, account, status, now);
            && after == st.(accounts := after.accounts, sessions := after.sessions)
            && after.accounts.Keys == st.accounts.Keys
            && (forall a :: a in st.accounts ==>
                  after.accounts[a]
                  == if a == account then st.accounts[a].(status := status, updatedAt := now) else st.accounts[a])
            && Closes(st.sessions, after.sessions,
                      if status == Active then {} else SessionsOf(st.sessions, account), now)
  {
    hide Revoke, SetStatus, Closes;
    SetStatusTables(st, account, status, now);
    StatusWritten(st, account, status, now);
    NothingCloses(st.sessions, now);
    OpenOnesClose(st.sessions, account, now);
  }

  lemma NothingCloses(sessions: map<Id, Session>, now: int)
    ensures Closes(sessions, sessions, {}, now)
  {
  }

  lemma OpenOnesClose(sessions: map<Id, Session>, account: Id, now: int)
    ensures Closes(sessions, Revoke(sessions, OpenOf(sessions, account), now), SessionsOf(sessions, account), now)
  {
  }

  lemma StatusWritten(st: Auth, account: Id, status: Status, now: int)
    ensures var after := SetStatus(st, account, status, now);
            && after == st.(accounts := after.accounts, sessions := after.sessions)
            && after.accounts == if account in st.accounts
                                 then st.accounts[account := st.accounts[account].(status := status, updatedAt := now)]
                                 else st.accounts
  {
    hide Revoke;
  }

  // ---------- Accounts ----------

  // An account is created exactly when its id and its address are new.
  lemma CreationAnswers(st: Auth, id: Id, email: string, name: string, hash: Id, now: int)
    ensures var r := CreateAccount(st, id, email, name, hash, now);
            if id !in st.accounts && (forall a :: a in st.accounts ==> st.accounts[a].email != email) then
              && r.1 == AccountCreated
              && r.0 == st.(accounts := st.accounts[id := Account(email, name, hash, Active, None, false, now, now)])
            else r == (st, DuplicateEmail)
  {
  }

  // A password is replaced in an account that exists and, if a hash is expected, is active and has
  // that hash.
  lemma HashAnswers(st: Auth, account: Id, encoded: Id, expected: Option<Id>, now: int)
    ensures var r := UpdateHash(st, account, encoded, expected, now);
            var written := account in st.accounts
                           && (expected == None
                               || (st.accounts[account].status == Active && expected == Some(st.accounts[account].passwordHash)));
            && (r.1 <==> written || expected == None)
            && r.0 == st.(accounts := r.0.accounts) && r.0.accounts.Keys == st.accounts.Keys
            && forall a :: a in st.accounts ==>
                 r.0.accounts[a] == if written && a == account then st.accounts[a].(passwordHash := encoded, updatedAt := now)
                                    else st.accounts[a]
  {
  }

  // ---------- The sessions after a login ----------

  // Sessions of the account on other installations that are in use and were seen more recently.
  function MoreRecent(sessions: map<Id, Session>, s: Id, installation: string, now: int): set<Id>
    requires s in sessions
  {
    set t | t in sessions && sessions[t].account == sessions[s].account && IsInUse(sessions[t], now)
            && sessions[t].installation != installation
            && (sessions[t].lastSeenAt > sessions[s].lastSeenAt
                || (sessions[t].lastSeenAt == sessions[s].lastSeenAt
                    && (sessions[t].createdAt > sessions[s].createdAt
                        || (sessions[t].createdAt == sessions[s].createdAt && t > s))))
  }

  // A session in use that a login displaces: it is on the same installation, or nine others are
  // more recent.
  predicate IsDisplaced(sessions: map<Id, Session>, s: Id, account: Id, installation: string, now: int) {
    && s in sessions && sessions[s].account == account && IsInUse(sessions[s], now)
    && (sessions[s].installation == installation || |MoreRecent(sessions, s, installation, now)| >= 9)
  }

  ghost predicate NoneExpired(sessions: map<Id, Session>, now: int) {
    forall s :: s in sessions && sessions[s].revokedAt == None ==> now < sessions[s].expiresAt
  }

  function Displaced(sessions: map<Id, Session>, account: Id, installation: string, now: int): set<Id> {
    set s | s in sessions && IsDisplaced(sessions, s, account, installation, now)
  }

  // The tables of a login after its revocations.
  function AfterOverflow(st: Auth, account: Id, installation: string, now: int): Auth {
    var replaced := RevokeAndDrop(st, Replaced(st.sessions, account, installation), now);
    RevokeAndDrop(replaced, Overflow(replaced.sessions, account), now)
  }

  lemma OverflowIsRecent(sessions: map<Id, Session>, account: Id, installation: string, now: int, s: Id)
    requires NoneExpired(sessions, now)
    ensures var replaced := Revoke(sessions, Replaced(sessions, account, installation), now);
            s in Overflow(replaced, account) <==>
              s in Displaced(sessions, account, installation, now) && sessions[s].installation != installation
  {
    StampsAfterReplacement(sessions, account, installation, now);
    var others := OtherStamps(sessions, account, installation);
    if s in others {
      assert Ahead(others, s) == MoreRecent(sessions, s, installation, now);
    }
  }

  lemma ReplacedAreDisplaced(sessions: map<Id, Session>, account: Id, installation: string, now: int, s: Id)
    requires NoneExpired(sessions, now)
    ensures s in Replaced(sessions, account, installation) <==>
              s in Displaced(sessions, account, installation, now) && sessions[s].installation == installation
  {
  }

  lemma AfterOverflowIs(st: Auth, account: Id, installation: string, now: int)
    requires NoneExpired(st.sessions, now)
    ensures var displaced := Displaced(st.sessions, account, installation, now);
            AfterOverflow(st, account, installation, now) == RevokeAndDrop(st, displaced, now)
  {
    hide Overflow, Displaced, Replaced;
    var first := Replaced(st.sessions, account, installation);
    var replaced := RevokeAndDrop(st, first, now);
    var second := Overflow(replaced.sessions, account);
    forall s ensures s in first + second <==> s in Displaced(st.sessions, account, installation, now) {
      OverflowIsRecent(st.sessions, account, installation, now, s);
      ReplacedAreDisplaced(st.sessions, account, installation, now, s);
    }
    assert first + second == Displaced(st.sessions, account, installation, now);
    RevokeTwice(st, first, second, now);
  }

  lemma RevokeTwice(st: Auth, a: set<Id>, b: set<Id>, now: int)
    ensures RevokeAndDrop(RevokeAndDrop(st, a, now), b, now) == RevokeAndDrop(st, a + b, now)
  {
    assert Revoke(Revoke(st.sessions, a, now), b, now) == Revoke(st.sessions, a + b, now);
    assert DropTokens(DropTokens(st, a), b) == DropTokens(st, a + b);
  }

  lemma PrunedNoneExpired(st: Auth, now: int)
    ensures NoneExpired(PruneStale(st, now).sessions, now)
  {
    SessionsAfterStale(st, now);
    hide PruneStale;
  }

  lemma InUseAfterStale(st: Auth, now: int, s: Id)
    ensures s in st.sessions && IsInUse(st.sessions[s], now)
            <==> s in PruneStale(st, now).sessions && IsInUse(PruneStale(st, now).sessions[s], now)
    ensures s in st.sessions && IsInUse(st.sessions[s], now) ==> PruneStale(st, now).sessions[s] == st.sessions[s]
  {
    SessionsAfterStale(st, now);
    hide PruneStale;
  }

  lemma DisplacedAfterStale(st: Auth, account: Id, installation: string, now: int, s: Id)
    ensures IsDisplaced(PruneStale(st, now).sessions, s, account, installation, now)
            <==> IsDisplaced(st.sessions, s, account, installation, now)
  {
    hide PruneStale;
    InUseAfterStale(st, now, s);
    var pruned := PruneStale(st, now).sessions;
    if s in st.sessions && IsInUse(st.sessions[s], now) {
      forall t ensures t in MoreRecent(pruned, s, installation, now) <==> t in MoreRecent(st.sessions, s, installation, now) {
        InUseAfterStale(st, now, t);
      }
      assert MoreRecent(pruned, s, installation, now) == MoreRecent(st.sessions, s, installation, now);
    }
  }

  // The closed sessions of an account.
  function ClosedOf(sessions: map<Id, Session>, account: Id): set<Id> {
    set s | s in sessions && sessions[s].account == account && sessions[s].revokedAt != None
  }

  // A session was closed later than another, or at once and opened later.
  predicate ClosedAfter(a: Session, x: Id, b: Session, y: Id) {
    && a.revokedAt.Some? && b.revokedAt.Some?
    && (a.revokedAt.value > b.revokedAt.value
        || (a.revokedAt.value == b.revokedAt.value
            && (a.createdAt > b.createdAt || (a.createdAt == b.createdAt && x > y))))
  }

  // Of the closed sessions the fifty latest stay; every other session stays.
  ghost predicate KeepsFifty(before: map<Id, Session>, after: map<Id, Session>, account: Id) {
    && (forall s :: s in after ==> s in before && after[s] == before[s])
    && (forall s :: s in before && s !in ClosedOf(before, account) ==> s in after)
    && |ClosedOf(after, account)| == Min(50, |ClosedOf(before, account)|)
    && forall s, t :: s in ClosedOf(after, account) && t in ClosedOf(before, account) && t !in after ==>
         s in before && ClosedAfter(before[s], s, before[t], t)
  }

  lemma ClosedStamps(sessions: map<Id, Session>, account: Id)
    ensures var stamps := RevokedStamps(sessions, account);
            && stamps.Keys == ClosedOf(sessions, account) && DistinctStamps(stamps)
            && (forall s, t :: s in stamps && t in stamps && Newer(stamps[s], stamps[t]) ==>
                  ClosedAfter(sessions[s], s, sessions[t], t))
  {
  }

  lemma TrimmedSessions(st: Auth, account: Id)
    ensures var stamps, after := RevokedStamps(st.sessions, account), TrimRevoked(st, account).sessions;
            forall s :: if s in stamps then s in after <==> s in Newest(stamps, 50) else s in after <==> s in st.sessions
    ensures forall s :: s in TrimRevoked(st, account).sessions ==>
              s in st.sessions && TrimRevoked(st, account).sessions[s] == st.sessions[s]
  {
    hide Newest;
  }

  lemma TrimKeepsFifty(st: Auth, account: Id)
    ensures KeepsFifty(st.sessions, TrimRevoked(st, account).sessions, account)
  {
    hide Newest, TrimRevoked, RevokedStamps, DistinctStamps, ClosedAfter, Newer;
    var stamps, after := RevokedStamps(st.sessions, account), TrimRevoked(st, account).sessions;
    ClosedStamps(st.sessions, account);
    TrimmedSessions(st, account);
    assert |stamps| == |stamps.Keys|;
    NewestIsFilled(stamps, 50);
    NewestIsBounded(stamps, 50);
    NewestAreRows(stamps, 50);
    assert ClosedOf(after, account) == Newest(stamps, 50);
  }

  // The sessions of a login, before the new one is added and the oldest closed ones go: those
  // that ended long ago are forgotten, expired and displaced ones are closed.
  ghost predicate AfterClosing(st: Auth, account: Id, installation: string, now: int, closed: map<Id, Session>) {
    && (forall s :: s in closed <==> s in st.sessions && !EndedLongAgo(st.sessions[s], now))
    && forall s :: s in closed ==>
         closed[s] == if st.sessions[s].revokedAt == None
                         && (st.sessions[s].expiresAt <= now || IsDisplaced(st.sessions, s, account, installation, now))
                      then st.sessions[s].(revokedAt := Some(now)) else st.sessions[s]
  }

  lemma ClosingIs(st: Auth, account: Id, installation: string, now: int)
    ensures var pruned := PruneExpired(PruneStale(st, now), now);
            AfterClosing(st, account, installation, now, AfterOverflow(pruned, account, installation, now).sessions)
  {
    hide PruneStale, PruneExpired, AfterOverflow, IsDisplaced;
    var stale := PruneStale(st, now);
    var pruned := PruneExpired(stale, now);
    PruneExpiredShrinks(stale, now);
    SessionsAfterStale(st, now);
    PrunedNoneExpired(st, now);
    AfterOverflowIs(pruned, account, installation, now);
    forall s ensures IsDisplaced(stale.sessions, s, account, installation, now)
                     <==> IsDisplaced(st.sessions, s, account, installation, now) {
      DisplacedAfterStale(st, account, installation, now, s);
    }
  }

  lemma LoginSteps(st: Auth, account: Id, expected: Id, session: Id, installation: string, tok: Tokens, sessionExpiresAt: int, now: int)
    ensures var r := CreateSession(st, account, expected, session, installation, tok, sessionExpiresAt, now);
            var closed := AfterOverflow(PruneExpired(PruneStale(st, now), now), account, installation, now);
            r.1.SessionOpened? ==>
              Some(r.0) == InsertLogin(TrimRevoked(closed, account), session, account, installation, tok, sessionExpiresAt, now)
  {
    hide PruneStale, PruneExpired, RevokeAndDrop, TrimRevoked, InsertLogin;
  }

  // A login adds its session, forgets sessions that ended long ago, closes those that expired or
  // are displaced, and keeps the fifty of its account that were closed last.
  lemma LoginSessions(st: Auth, account: Id, expected: Id, session: Id, installation: string, tok: Tokens,
                      sessionExpiresAt: int, now: int) returns (closed: map<Id, Session>)
    requires CreateSession(st, account, expected, session, installation, tok, sessionExpiresAt, now).1.SessionOpened?
    ensures AfterClosing(st, account, installation, now, closed)
    ensures var after := CreateSession(st, account, expected, session, installation, tok, sessionExpiresAt, now).0;
            && session in after.sessions
            && after.sessions[session] == Session(account, installation, now, now, sessionExpiresAt, None)
            && KeepsFifty(closed, after.sessions - {session}, account)
  {
    hide PruneStale, PruneExpired, AfterOverflow, TrimRevoked, AfterClosing, KeepsFifty, CreateSession;
    var bounded := AfterOverflow(PruneExpired(PruneStale(st, now), now), account, installation, now);
    ClosingIs(st, account, installation, now);
    TrimKeepsFifty(bounded, account);
    LoginSteps(st, account, expected, session, installation, tok, sessionExpiresAt, now);
    closed := bounded.sessions;
    var after := CreateSession(st, account, expected, session, installation, tok, sessionExpiresAt, now).0;
    assert after.sessions - {session} == TrimRevoked(bounded, account).sessions;
  }

  // A login is refused exactly when the account is not stored and active with the verified hash;
  // apart from that only an id or digest in use can stop it, and a refusal changes nothing.
  lemma LoginAnswers(st: Auth, account: Id, expected: Id, session: Id, installation: string, tok: Tokens,
                     sessionExpiresAt: int, now: int)
    requires Linked(st)
    ensures var r := CreateSession(st, account, expected, session, installation, tok, sessionExpiresAt, now);
            var proven := account in st.accounts && st.accounts[account].status == Active
                          && st.accounts[account].passwordHash == expected;
            && (r.1 == CredentialsChanged <==> !proven)
            && (r.1 == IdTaken ==> session in st.sessions || tok.access in st.access || tok.refresh in st.refresh)
            && (r.1 != SessionOpened ==> r.0 == st)
            && r.0.accounts == st.accounts && r.0.actions == st.actions
  {
    hide PruneStale, PruneExpired, PrepareSession, Fewer, Sound;
    CreateAccounts(st, account, expected, session, installation, tok, sessionExpiresAt, now);
    CreateActions(st, account, expected, session, installation, tok, sessionExpiresAt, now);
    LoginKeepsOld(st, account, installation, now);
  }

  // The preparation of a login adds nothing.
  lemma LoginKeepsOld(st: Auth, account: Id, installation: string, now: int)
    ensures var prepared := PrepareSession(PruneExpired(PruneStale(st, now), now), account, installation, now);
            && (forall s :: s in prepared.sessions ==> s in st.sessions)
            && (forall d :: d in prepared.access ==> d in st.access && prepared.access[d] == st.access[d])
            && (forall d :: d in prepared.refresh ==> d in st.refresh && prepared.refresh[d] == st.refresh[d])
            && prepared.nextRow == st.nextRow
  {
    hide Replaced, Overflow, Newest, RevokedStamps, PruneExpired, StaleSessions, ExpiredSessions;
    PruneExpiredShrinks(PruneStale(st, now), now);
  }

  // A session that a login leaves alone.
  predicate IsSpared(st: Auth, after: Auth, s: Id, account: Id, installation: string, now: int) {
    s in after.sessions && !IsDisplaced(st.sessions, s, account, installation, now)
  }

  lemma TrimmedTokens(st: Auth, account: Id, x: Id)
    requires Linked(st)
    ensures var after := TrimRevoked(st, account);
            && (x in after.access <==> x in st.access && st.access[x].session in after.sessions)
            && (x in after.refresh <==> x in st.refresh && st.refresh[x].session in after.sessions)
  {
    hide Newest, RevokedStamps;
  }

  lemma PreparedTokens(st: Auth, account: Id, installation: string, now: int, x: Id)
    requires Sound(st) && NoneExpired(st.sessions, now)
    ensures var after := PrepareSession(st, account, installation, now);
            && (x in after.access <==> x in st.access && IsSpared(st, after, st.access[x].session, account, installation, now))
            && (x in after.refresh <==> x in st.refresh && IsSpared(st, after, st.refresh[x].session, account, installation, now))
  {
    hide Sound, TrimRevoked, IsDisplaced, Overflow, Replaced;
    var displaced := Displaced(st.sessions, account, installation, now);
    AfterOverflowIs(st, account, installation, now);
    RevokeAndDropIsSound(st, displaced, now);
    SoundIsLinked(st);
    SoundIsLinked(RevokeAndDrop(st, displaced, now));
    TrimmedTokens(RevokeAndDrop(st, displaced, now), account, x);
  }

  lemma PreparedSpares(st: Auth, account: Id, installation: string, now: int, s: Id)
    requires Sound(st)
    ensures var pruned := PruneExpired(PruneStale(st, now), now);
            var prepared := PrepareSession(pruned, account, installation, now);
            && (IsSpared(pruned, prepared, s, account, installation, now)
                <==> IsSpared(st, prepared, s, account, installation, now))
            && (s in prepared.sessions ==> s in st.sessions && !EndedLongAgo(st.sessions[s], now))
  {
    hide Sound, PruneStale, PruneExpired, PrepareSession, IsDisplaced, EndedLongAgo, FewerAccess, FewerRefresh;
    var stale := PruneStale(st, now);
    PruneStaleIsSound(st, now);
    PruneExpiredIsSound(stale, now);
    PruneExpiredShrinks(stale, now);
    DisplacedAfterStale(st, account, installation, now, s);
    PrepareIsSound(PruneExpired(stale, now), account, installation, now);
    SessionsAfterStale(st, now);
  }

  lemma LoginDropsTokens(st: Auth, account: Id, installation: string, now: int, x: Id)
    requires Sound(st)
    ensures var after := PrepareSession(PruneExpired(PruneStale(st, now), now), account, installation, now);
            && (x in after.access ==> x in st.access && IsSpared(st, after, st.access[x].session, account, installation, now))
            && (x in after.refresh ==> x in st.refresh && IsSpared(st, after, st.refresh[x].session, account, installation, now))
            && (x in st.access && now < st.access[x].expiresAt
                && IsSpared(st, after, st.access[x].session, account, installation, now) ==>
                  x in after.access)
            && (x in st.refresh && (IsLive(st.refresh, x, now) || IsRetryable(st.refresh, x, now))
                && IsSpared(st, after, st.refresh[x].session, account, installation, now) ==>
                  x in after.refresh)
  {
    hide Sound, PruneStale, PruneExpired, PrepareSession, IsDisplaced, IsLive, IsRetryable, EndedLongAgo;
    var stale := PruneStale(st, now);
    var pruned := PruneExpired(stale, now);
    SoundIsLinked(st);
    PruneStaleIsSound(st, now);
    PruneExpiredIsSound(stale, now);
    PruneExpiredShrinks(stale, now);
    PrunedNoneExpired(st, now);
    LoginKeepsOld(st, account, installation, now);
    PreparedTokens(pruned, account, installation, now, x);
    TokensAfterStale(st, now);
    UsefulAfterStale(st, now, x);
    ExpiredTokensAreGone(stale, now, x);
    if x in st.access {
      PreparedSpares(st, account, installation, now, st.access[x].session);
    }
    if x in st.refresh {
      PreparedSpares(st, account, installation, now, st.refresh[x].session);
    }
  }

  lemma LoginAddsPair(st: Auth, account: Id, expected: Id, session: Id, installation: string, tok: Tokens,
                      sessionExpiresAt: int, now: int)
    requires CreateSession(st, account, expected, session, installation, tok, sessionExpiresAt, now).1.SessionOpened?
    ensures var after := CreateSession(st, account, expected, session, installation, tok, sessionExpiresAt, now).0;
            var prepared := PrepareSession(PruneExpired(PruneStale(st, now), now), account, installation, now);
            && session !in prepared.sessions && after.sessions.Keys == prepared.sessions.Keys + {session}
            && after.access
               == prepared.access[tok.access := Access(tok.accessNonce, session, now, tok.accessExpiresAt, st.nextRow)]
            && after.refresh
               == prepared.refresh[tok.refresh := Refresh(tok.refreshNonce, session, now, tok.refreshExpiresAt, st.nextRow, None)]
  {
    hide PruneStale, PruneExpired, PrepareSession;
    LoginKeepsOld(st, account, installation, now);
  }

  // A session that stays beside the new one, neither displaced by it nor forgotten.
  predicate StaysBeside(st: Auth, after: Auth, s: Id, session: Id, account: Id, installation: string, now: int) {
    s != session && IsSpared(st, after, s, account, installation, now)
  }

  // A login adds the two rows of its pair. Every other token is as it was and belongs to a session
  // that stays; while it is of use it stays with its session.
  lemma LoginTokens(st: Auth, account: Id, expected: Id, session: Id, installation: string, tok: Tokens,
                    sessionExpiresAt: int, now: int, x: Id)
    requires Sound(st)
    requires CreateSession(st, account, expected, session, installation, tok, sessionExpiresAt, now).1.SessionOpened?
    ensures var after := CreateSession(st, account, expected, session, installation, tok, sessionExpiresAt, now).0;
            && tok.access in after.access && tok.refresh in after.refresh
            && (x in after.access ==>
                  if x == tok.access then after.access[x] == Access(tok.accessNonce, session, now, tok.accessExpiresAt, st.nextRow)
                  else
                    && x in st.access && after.access[x] == st.access[x]
                    && StaysBeside(st, after, st.access[x].session, session, account, installation, now))
            && (x in after.refresh ==>
                  if x == tok.refresh then
                    after.refresh[x] == Refresh(tok.refreshNonce, session, now, tok.refreshExpiresAt, st.nextRow, None)
                  else
                    && x in st.refresh && after.refresh[x] == st.refresh[x]
                    && StaysBeside(st, after, st.refresh[x].session, session, account, installation, now))
  {
    hide Sound, CreateSession, PruneStale, PruneExpired, PrepareSession, IsDisplaced;
    LoginAddsPair(st, account, expected, session, installation, tok, sessionExpiresAt, now);
    LoginKeepsOld(st, account, installation, now);
    LoginDropsTokens(st, account, installation, now, x);
  }

  lemma LoginKeepsUseful(st: Auth, account: Id, expected: Id, session: Id, installation: string, tok: Tokens,
                         sessionExpiresAt: int, now: int, x: Id)
    requires Sound(st)
    requires CreateSession(st, account, expected, session, installation, tok, sessionExpiresAt, now).1.SessionOpened?
    ensures var after := CreateSession(st, account, expected, session, installation, tok, sessionExpiresAt, now).0;
            && (x in st.access && now < st.access[x].expiresAt
                && StaysBeside(st, after, st.access[x].session, session, account, installation, now) ==>
                  x in after.access)
            && (x in st.refresh && (IsLive(st.refresh, x, now) || IsRetryable(st.refresh, x, now))
                && StaysBeside(st, after, st.refresh[x].session, session, account, installation, now) ==>
                  x in after.refresh)
  {
    hide Sound, CreateSession, PruneStale, PruneExpired, PrepareSession, IsDisplaced, IsLive, IsRetryable;
    LoginAddsPair(st, account, expected, session, installation, tok, sessionExpiresAt, now);
    LoginDropsTokens(st, account, installation, now, x);
  }

  // ---------- Registration ----------

  // A registration is refused when its id or its address is taken, and apart from that only for an
  // id or digest in use; a refusal changes nothing and names the address only if that is taken.
  lemma RegistrationAnswers(st: Auth, id: Id, email: string, name: string, hash: Id, session: Id, installation: string,
                            tok: Tokens, sessionExpiresAt: int, now: int)
    ensures var r := Register(st, id, email, name, hash, session, installation, tok, sessionExpiresAt, now);
            var taken := exists a :: a in st.accounts && st.accounts[a].email == email;
            && (r.1 == AccountCreated ==>
                  && id !in st.accounts && !taken
                  && r.0.accounts == st.accounts[id := Account(email, name, hash, Active, None, true, now, now)]
                  && r.0.actions == st.actions)
            && (r.1 != AccountCreated ==>
                  && r.0 == st && (r.1 == DuplicateEmail <==> taken)
                  && (id in st.accounts || taken || session in st.sessions || tok.access in st.access || tok.refresh in st.refresh))
  {
    hide PruneStale, PruneExpired;
    RegisterResult(st, id, email, name, hash, session, installation, tok, sessionExpiresAt, now);
    RegisterActions(st, id, email, name, hash, session, installation, tok, sessionExpiresAt, now);
    PruningAddsNothing(st.(accounts := st.accounts[id := Account(email, name, hash, Active, None, true, now, now)]), now);
  }

  lemma PruningAddsNothing(st: Auth, now: int)
    ensures var pruned := PruneExpired(PruneStale(st, now), now);
            && (forall s :: s in pruned.sessions ==> s in st.sessions)
            && (forall d :: d in pruned.access ==> d in st.access && pruned.access[d] == st.access[d])
            && (forall d :: d in pruned.refresh ==> d in st.refresh && pruned.refresh[d] == st.refresh[d])
            && pruned.nextRow == st.nextRow
  {
    hide PruneExpired, StaleSessions, ExpiredSessions;
    PruneExpiredShrinks(PruneStale(st, now), now);
  }

  lemma RegisteredTables(st: Auth, id: Id, email: string, name: string, hash: Id, session: Id, installation: string,
                         tok: Tokens, sessionExpiresAt: int, now: int)
    requires Register(st, id, email, name, hash, session, installation, tok, sessionExpiresAt, now).1 == AccountCreated
    ensures var after := Register(st, id, email, name, hash, session, installation, tok, sessionExpiresAt, now).0;
            var next := st.(accounts := st.accounts[id := Account(email, name, hash, Active, None, true, now, now)]);
            var pruned := PruneExpired(PruneStale(next, now), now);
            && id !in st.accounts && session !in pruned.sessions
            && after.sessions == pruned.sessions[session := Session(id, installation, now, now, sessionExpiresAt, None)]
            && after.access == pruned.access[tok.access := Access(tok.accessNonce, session, now, tok.accessExpiresAt, st.nextRow)]
            && after.refresh
               == pruned.refresh[tok.refresh := Refresh(tok.refreshNonce, session, now, tok.refreshExpiresAt, st.nextRow, None)]
  {
    hide PruneStale, PruneExpired;
    PruningAddsNothing(st.(accounts := st.accounts[id := Account(email, name, hash, Active, None, true, now, now)]), now);
  }

  lemma AddedAccount(st: Auth, id: Id, a: Account, now: int)
    requires Sound(st) && id !in st.accounts
    ensures var next := st.(accounts := st.accounts[id := a]);
            Sound(next) && Linked(next) && Sound(PruneStale(next, now))
  {
    hide Sound, PruneStale, Shrinks;
    MoreAccountsIsSound(st, id, a);
    SoundIsLinked(st.(accounts := st.accounts[id := a]));
    PruneStaleIsSound(st.(accounts := st.accounts[id := a]), now);
  }

  // A registration adds its session and the rows of its pair; sessions that ended long ago are
  // forgotten with their tokens, expired ones are closed, and every other row is as it was or gone.
  lemma RegistrationEffect(st: Auth, id: Id, email: string, name: string, hash: Id, session: Id, installation: string,
                           tok: Tokens, sessionExpiresAt: int, now: int, x: Id)
    requires Register(st, id, email, name, hash, session, installation, tok, sessionExpiresAt, now).1 == AccountCreated
    ensures var after := Register(st, id, email, name, hash, session, installation, tok, sessionExpiresAt, now).0;
            && (x in after.sessions <==> x == session || (x in st.sessions && !EndedLongAgo(st.sessions[x], now)))
            && (x in after.sessions ==>
                  after.sessions[x]
                  == if x == session then Session(id, installation, now, now, sessionExpiresAt, None)
                     else if st.sessions[x].revokedAt == None && st.sessions[x].expiresAt <= now then
                       st.sessions[x].(revokedAt := Some(now))
                     else st.sessions[x])
            && (x in after.access ==>
                  if x == tok.access then after.access[x] == Access(tok.accessNonce, session, now, tok.accessExpiresAt, st.nextRow)
                  else x in st.access && after.access[x] == st.access[x])
            && (x in after.refresh ==>
                  if x == tok.refresh then
                    after.refresh[x] == Refresh(tok.refreshNonce, session, now, tok.refreshExpiresAt, st.nextRow, None)
                  else x in st.refresh && after.refresh[x] == st.refresh[x])
  {
    hide Register, PruneStale, PruneExpired, EndedLongAgo, Fewer, FewerAccess, FewerRefresh;
    RegisteredTables(st, id, email, name, hash, session, installation, tok, sessionExpiresAt, now);
    var next := st.(accounts := st.accounts[id := Account(email, name, hash, Active, None, true, now, now)]);
    PruningAddsNothing(next, now);
    PruneExpiredShrinks(PruneStale(next, now), now);
    SessionsAfterStale(next, now);
  }

  // A registration takes no token that is of use from a session that is remembered.
  lemma RegistrationKeepsUseful(st: Auth, id: Id, email: string, name: string, hash: Id, session: Id,
                                installation: string, tok: Tokens, sessionExpiresAt: int, now: int, x: Id)
    requires Sound(st)
    requires Register(st, id, email, name, hash, session, installation, tok, sessionExpiresAt, now).1 == AccountCreated
    ensures var after := Register(st, id, email, name, hash, session, installation, tok, sessionExpiresAt, now).0;
            && (IsKnown(st, x, now) && (IsLive(st.refresh, x, now) || IsRetryable(st.refresh, x, now)) ==> x in after.refresh)
            && (x in st.access && st.access[x].session in st.sessions && now < st.access[x].expiresAt
                && !EndedLongAgo(st.sessions[st.access[x].session], now) ==>
                  x in after.access)
  {
    hide Sound, Register, PruneStale, PruneExpired, EndedLongAgo, IsLive, IsRetryable;
    RegisteredTables(st, id, email, name, hash, session, installation, tok, sessionExpiresAt, now);
    var a := Account(email, name, hash, Active, None, true, now, now);
    var next := st.(accounts := st.accounts[id := a]);
    AddedAccount(st, id, a, now);
    TokensAfterStale(next, now);
    UsefulAfterStale(next, now, x);
    ExpiredTokensAreGone(PruneStale(next, now), now, x);
  }

  // ---------- What a login cleans up ----------

  // Beside the new pair nothing is left that neither its holder nor a retry could use.
  ghost predicate OthersUseful(st: Auth, tok: Tokens, now: int) {
    && (forall d :: d in st.refresh && d != tok.refresh ==> IsLive(st.refresh, d, now) || IsRetryable(st.refresh, d, now))
    && forall a :: a in st.access && a != tok.access ==> now < st.access[a].expiresAt || IsPromised(st.refresh, a, now)
  }

  lemma AddedPairKeepsUseful(st: Auth, session: Id, tok: Tokens, now: int)
    requires OnlyUseful(st, now) && tok.access !in st.access && tok.refresh !in st.refresh
    ensures InsertTokens(st, session, tok, now).Some? ==> OthersUseful(InsertTokens(st, session, tok, now).value, tok, now)
  {
    var added := InsertTokens(st, session, tok, now);
    forall a | a in st.access && st.access[a].expiresAt <= now ensures IsPromised(added.value.refresh, a, now) {
      var p :| p in st.refresh && IsRetryable(st.refresh, p, now) && st.refresh[p].consumed.value.access == a;
      assert IsRetryable(added.value.refresh, p, now);
    }
  }

  lemma DroppingKeepsUseful(st: Auth, ids: set<Id>, now: int)
    requires OnlyUseful(st, now) && Families(st.refresh, st.access)
    ensures OnlyUseful(DropTokens(st, ids), now)
  {
    var after := DropTokens(st, ids);
    forall d | d in after.refresh ensures IsLive(after.refresh, d, now) || IsRetryable(after.refresh, d, now) {
      DroppingKeepsRetry(st, ids, now, d);
    }
    forall a | a in after.access && after.access[a].expiresAt <= now ensures IsPromised(after.refresh, a, now) {
      var p :| p in st.refresh && IsRetryable(st.refresh, p, now) && st.refresh[p].consumed.value.access == a;
      assert IsParent(st.refresh, st.access, p);
      DroppingKeepsRetry(st, ids, now, p);
      assert p in after.refresh && IsRetryable(after.refresh, p, now);
    }
  }

  lemma DroppingKeepsRetry(st: Auth, ids: set<Id>, now: int, d: Id)
    requires Families(st.refresh, st.access) && d in DropTokens(st, ids).refresh
    ensures IsRetryable(st.refresh, d, now) ==> IsRetryable(DropTokens(st, ids).refresh, d, now)
    ensures IsLive(st.refresh, d, now) ==> IsLive(DropTokens(st, ids).refresh, d, now)
  {
    if IsRetryable(st.refresh, d, now) {
      assert IsParent(st.refresh, st.access, d);
    }
  }

  lemma PreparingKeepsUseful(st: Auth, account: Id, installation: string, now: int)
    requires Sound(st) && OnlyUseful(st, now)
    ensures OnlyUseful(PrepareSession(st, account, installation, now), now)
  {
    hide Sound, OnlyUseful, Replaced, Overflow, RevokedStamps, Newest, Families;
    var first := Replaced(st.sessions, account, installation);
    var replaced := RevokeAndDrop(st, first, now);
    SoundFamilies(st);
    DroppingKeepsUseful(st, first, now);
    UsefulTokens(DropTokens(st, first), replaced, now);
    RevokeAndDropIsSound(st, first, now);
    var second := Overflow(replaced.sessions, account);
    var bounded := RevokeAndDrop(replaced, second, now);
    SoundFamilies(replaced);
    DroppingKeepsUseful(replaced, second, now);
    UsefulTokens(DropTokens(replaced, second), bounded, now);
    RevokeAndDropIsSound(replaced, second, now);
    SoundFamilies(bounded);
    var stamps := RevokedStamps(bounded.sessions, account);
    DroppingKeepsUseful(bounded, stamps.Keys - Newest(stamps, MAX_RETAINED_REVOKED), now);
    UsefulTokens(DropTokens(bounded, stamps.Keys - Newest(stamps, MAX_RETAINED_REVOKED)),
                     TrimRevoked(bounded, account), now);
  }

  lemma LoginCleansUp(st: Auth, account: Id, expected: Id, session: Id, installation: string, tok: Tokens,
                      sessionExpiresAt: int, now: int)
    requires Sound(st)
    requires CreateSession(st, account, expected, session, installation, tok, sessionExpiresAt, now).1.SessionOpened?
    ensures OthersUseful(CreateSession(st, account, expected, session, installation, tok, sessionExpiresAt, now).0, tok, now)
  {
    hide Sound, PruneStale, PruneExpired, PrepareSession, OnlyUseful, OthersUseful;
    var stale := PruneStale(st, now);
    PruneStaleIsSound(st, now);
    PruneExpiredIsSound(stale, now);
    PrunedIsUseful(stale, now);
    var prepared := PrepareSession(PruneExpired(stale, now), account, installation, now);
    PreparingKeepsUseful(PruneExpired(stale, now), account, installation, now);
    var next := prepared.(sessions := prepared.sessions[session := Session(account, installation, now, now, sessionExpiresAt, None)]);
    UsefulTokens(prepared, next, now);
    AddedPairKeepsUseful(next, session, tok, now);
  }

  lemma RegistrationCleansUp(st: Auth, id: Id, email: string, name: string, hash: Id, session: Id, installation: string,
                             tok: Tokens, sessionExpiresAt: int, now: int)
    requires Register(st, id, email, name, hash, session, installation, tok, sessionExpiresAt, now).1 == AccountCreated
    ensures OthersUseful(Register(st, id, email, name, hash, session, installation, tok, sessionExpiresAt, now).0, tok, now)
  {
    hide PruneStale, PruneExpired, OnlyUseful, OthersUseful;
    var stale := PruneStale(st.(accounts := st.accounts[id := Account(email, name, hash, Active, None, true, now, now)]), now);
    PrunedIsUseful(stale, now);
    var pruned := PruneExpired(stale, now);
    var next := pruned.(sessions := pruned.sessions[session := Session(id, installation, now, now, sessionExpiresAt, None)]);
    UsefulTokens(pruned, next, now);
    AddedPairKeepsUseful(next, session, tok, now);
  }
}
