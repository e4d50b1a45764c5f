/** Which sessions and access tokens are kept when there are too many, and that a closed session
    stays closed. */
module SessionLimits {
  import opened Basics
  import opened AuthTables
  import opened AuthMachine
  import opened AuthInvariant
  import opened AuthOperations
  import opened RefreshRetry

  // ---------- A closed session stays closed ----------

  ghost predicate NeverReopens(ops: seq<Op>, session: Id) {
    forall i :: 0 <= i < |ops| ==> !Reopens(ops[i], session)
  }

  lemma {:induction false} ClosedStaysClosed(st: Auth, ops: seq<Op>, session: Id)
    requires Sound(st) && !IsOpen(st, session) && NeverReopens(ops, session)
    ensures !IsOpen(Run(st, ops), session)
  {
    hide Sound, Step, Reopens;
    if ops != [] {
      var init, last := ops[..|ops| - 1], ops[|ops| - 1];
      assert forall i :: 0 <= i < |init| ==> init[i] == ops[i];
      ClosedStaysClosed(st, init, session);
      RunIsSound(st, init);
      if session in Step(Run(st, init), last).sessions {
        StepSessions(Run(st, init), last, session);
      }
    }
  }

  // A session that was revoked or deleted never authenticates again, with any token at any time.
  lemma RevokedNeverAuthenticates(st: Auth, ops: seq<Op>, session: Id, account: Id, digest: Id, now: int)
    requires Sound(st) && !IsOpen(st, session) && NeverReopens(ops, session)
    ensures Authenticate(Run(st, ops), digest, now) != Authenticated(account, session)
  {
    hide Sound, Run, NeverReopens;
    ClosedStaysClosed(st, ops, session);
  }

  // ---------- The open sessions after a login ----------

  // The open sessions of an account that a login on an installation does not replace.
  function OtherStamps(sessions: map<Id, Session>, account: Id, installation: string): map<Id, Stamp> {
    map s | s in sessions && sessions[s].account == account && sessions[s].revokedAt.None?
            && sessions[s].installation != installation ::
      Stamp(sessions[s].lastSeenAt, sessions[s].createdAt, s)
  }

  lemma StampsAfterReplacement(sessions: map<Id, Session>, account: Id, installation: string, now: int)
    ensures OpenStamps(Revoke(sessions, Replaced(sessions, account, installation), now), account)
            == OtherStamps(sessions, account, installation)
  {
  }

  lemma OpenAfterOverflow(sessions: map<Id, Session>, account: Id, now: int)
    ensures OpenOf(Revoke(sessions, Overflow(sessions, account), now), account)
            == Newest(OpenStamps(sessions, account), MAX_ACTIVE_SESSIONS - 1)
  {
    hide Newest;
    assert Newest(OpenStamps(sessions, account), MAX_ACTIVE_SESSIONS - 1) <= OpenStamps(sessions, account).Keys by {
      NewestAreRows(OpenStamps(sessions, account), MAX_ACTIVE_SESSIONS - 1);
    }
  }

  lemma NewestAreRows(stamps: map<Id, Stamp>, limit: nat)
    ensures Newest(stamps, limit) <= stamps.Keys
  {
  }

  lemma OpenAfterPrepare(st: Auth, account: Id, installation: string, now: int)
    ensures OpenOf(PrepareSession(st, account, installation, now).sessions, account)
            == Newest(OtherStamps(st.sessions, account, installation), MAX_ACTIVE_SESSIONS - 1)
  {
    hide Newest, Replaced, Overflow, OpenStamps, OtherStamps, OpenOf, TrimRevoked, Revoke;
    var replaced := RevokeAndDrop(st, Replaced(st.sessions, account, installation), now);
    StampsAfterReplacement(st.sessions, account, installation, now);
    OpenAfterOverflow(replaced.sessions, account, now);
    TrimLeavesFifty(RevokeAndDrop(replaced, Overflow(replaced.sessions, account), now), account);
  }

  lemma OpenAfterLogin(st: Auth, id: Id, account: Id, installation: string, tok: Tokens, expiresAt: int, now: int)
    requires InsertLogin(st, id, account, installation, tok, expiresAt, now).Some?
    ensures OpenOf(InsertLogin(st, id, account, installation, tok, expiresAt, now).value.sessions, account)
            == OpenOf(st.sessions, account) + {id}
  {
  }

  // After a login the open sessions of the account are the new one and the nine most recently
  // seen of those on other installations that had not expired.
  lemma RecentSessionsStay(st: Auth, account: Id, expected: Id, session: Id, installation: string, tok: Tokens,
                           sessionExpiresAt: int, now: int)
    requires CreateSession(st, account, expected, session, installation, tok, sessionExpiresAt, now).1.SessionOpened?
    ensures var after := CreateSession(st, account, expected, session, installation, tok, sessionExpiresAt, now).0;
            var others := OtherStamps(PruneStale(st, now).sessions, account, installation);
            var kept := Newest(others, 9);
            && OpenOf(after.sessions, account) == kept + {session}
            && |kept| <= 9 && (|others| <= 9 ==> kept == others.Keys)
            && forall x, y :: x in kept && y in others && y !in kept ==> x in others && Newer(others[x], others[y])
  {
    hide PruneStale, PruneExpired, PrepareSession, InsertLogin, OtherStamps, Newest, OpenOf;
    var pruned := PruneExpired(PruneStale(st, now), now);
    PruneExpiredShrinks(PruneStale(st, now), now);
    OpenAfterPrepare(pruned, account, installation, now);
    OpenAfterLogin(PrepareSession(pruned, account, installation, now), session, account, installation, tok,
                   sessionExpiresAt, now);
    var others := OtherStamps(PruneStale(st, now).sessions, account, installation);
    OtherStampsDiffer(PruneStale(st, now).sessions, account, installation);
    NewestIsBounded(others, 9);
    NewestAreRows(others, 9);
    if |others| <= 9 {
      NewestIsFull(others, 9);
    }
  }

  lemma OtherStampsDiffer(sessions: map<Id, Session>, account: Id, installation: string)
    ensures DistinctStamps(OtherStamps(sessions, account, installation))
  {
  }

  // ---------- Access tokens when the clock does not go back ----------

  // No access token is younger than the clock or has a row number yet to come.
  ghost predicate Timely(st: Auth, now: int) {
    && (forall d :: d in st.access ==> st.access[d].createdAt <= now && st.access[d].row < st.nextRow)
    && forall s :: |AccessOf(st.access, s)| <= MAX_ACCESS_TOKENS
  }

  lemma FewerTimely(before: Auth, after: Auth, now: int)
    requires Timely(before, now) && FewerAccess(before.access, after.access) && after.nextRow == before.nextRow
    ensures Timely(after, now)
  {
    forall s ensures |AccessOf(after.access, s)| <= MAX_ACCESS_TOKENS {
      SubsetSize(AccessOf(after.access, s), AccessOf(before.access, s));
    }
  }

  lemma LaterTimely(st: Auth, now: int, later: int)
    requires Timely(st, now) && now <= later
    ensures Timely(st, later)
  {
  }

  lemma LoginTimely(st: Auth, id: Id, account: Id, installation: string, tok: Tokens, expiresAt: int, now: int)
    requires Timely(st, now) && Linked(st) && InsertLogin(st, id, account, installation, tok, expiresAt, now).Some?
    ensures Timely(InsertLogin(st, id, account, installation, tok, expiresAt, now).value, now)
  {
    var after := InsertLogin(st, id, account, installation, tok, expiresAt, now).value;
    forall s ensures |AccessOf(after.access, s)| <= MAX_ACCESS_TOKENS {
      if s == id {
        assert AccessOf(after.access, s) == {tok.access};
      } else {
        assert AccessOf(after.access, s) == AccessOf(st.access, s);
      }
    }
  }

  // The token just inserted is the newest of its session.
  lemma InsertedIsNewest(st: Auth, d: Id, request: string, tok: Tokens, now: int, mid: Auth, protected: set<Id>)
    requires Timely(st, now) && Exchanged(st, d, request, tok, now, mid) && protected <= {tok.access}
    ensures var eligible := EligibleStamps(mid.access, st.refresh[d].session, protected, now);
            protected * eligible.Keys <= Newest(eligible, MAX_ACCESS_TOKENS)
  {
    var eligible := EligibleStamps(mid.access, st.refresh[d].session, protected, now);
    if tok.access in eligible {
      forall y | y in eligible ensures !Newer(eligible[y], eligible[tok.access]) {
      }
      assert Ahead(eligible, tok.access) == {};
    }
  }

  // The only token given up for the new one is the one just exchanged.
  lemma ProtectedIsNew(st: Auth, d: Id, request: string, tok: Tokens, now: int, mid: Auth)
    requires Families(st.refresh, st.access) && Exchanged(st, d, request, tok, now, mid) && st.refresh[d].consumed.None?
    ensures var id := st.refresh[d].session;
            ProtectedAccess(mid.refresh, Parent(mid.refresh, id, Current(mid.refresh, id, now))) <= {tok.access}
  {
    var id := st.refresh[d].session;
    ExchangeLinks(st, d, request, tok, now, mid);
    var current := Current(mid.refresh, id, now);
    var parent := Parent(mid.refresh, id, current);
    forall p | p in parent && p in mid.refresh && mid.refresh[p].consumed.Some?
      ensures mid.refresh[p].consumed.value.access == tok.access
    {
      ParentIsKept(mid.refresh, id, now, p);
      KeptOfExchange(st, d, request, tok, now, mid, p);
    }
  }

  lemma ParentIsKept(refresh: map<Id, Refresh>, session: Id, now: int, p: Id)
    requires p in Parent(refresh, session, Current(refresh, session, now))
    ensures p in refresh && refresh[p].session == session && refresh[p].consumed.Some? && IsKept(refresh, p, now)
  {
    hide Ahead;
  }

  lemma OwnAccessAfterExchange(st: Auth, d: Id, request: string, tok: Tokens, now: int, mid: Auth)
    requires Timely(st, now) && Exchanged(st, d, request, tok, now, mid)
    requires Families(st.refresh, st.access) && st.refresh[d].consumed.None?
    ensures |AccessOf(PruneFamily(mid, st.refresh[d].session, now).access, st.refresh[d].session)| <= MAX_ACCESS_TOKENS
  {
    hide Parent, Current, Newest, KeptAccess, ProtectedAccess, Families, Timely, InsertTokens, Consume, EligibleStamps;
    var id := st.refresh[d].session;
    ProtectedIsNew(st, d, request, tok, now, mid);
    var protected := ProtectedAccess(mid.refresh, Parent(mid.refresh, id, Current(mid.refresh, id, now)));
    InsertedIsNewest(st, d, request, tok, now, mid, protected);
    SubsetSize(protected, {tok.access});
    KeptAccessIsBounded(mid.access, id, protected, now);
    SubsetSize(AccessOf(PruneFamily(mid, id, now).access, id), KeptAccess(mid.access, id, protected, now));
  }

  lemma RowsAfterExchange(st: Auth, d: Id, request: string, tok: Tokens, now: int, mid: Auth)
    requires Timely(st, now) && Exchanged(st, d, request, tok, now, mid)
    ensures forall a :: a in mid.access ==> mid.access[a].createdAt <= now && mid.access[a].row < mid.nextRow
    ensures forall s :: s != st.refresh[d].session ==> |AccessOf(mid.access, s)| <= MAX_ACCESS_TOKENS
  {
    forall s | s != st.refresh[d].session ensures |AccessOf(mid.access, s)| <= MAX_ACCESS_TOKENS {
      assert AccessOf(mid.access, s) == AccessOf(st.access, s);
    }
  }

  lemma ExchangeTimely(st: Auth, d: Id, request: string, tok: Tokens, now: int, mid: Auth)
    requires Timely(st, now) && Exchanged(st, d, request, tok, now, mid)
    requires Families(st.refresh, st.access) && st.refresh[d].consumed.None?
    ensures Timely(PruneFamily(mid, st.refresh[d].session, now), now)
  {
    hide PruneFamily, Families, InsertTokens, Consume;
    var id := st.refresh[d].session;
    var after := PruneFamily(mid, id, now);
    OwnAccessAfterExchange(st, d, request, tok, now, mid);
    RowsAfterExchange(st, d, request, tok, now, mid);
    PruneFamilyShrinks(mid, id, now);
    forall s ensures |AccessOf(after.access, s)| <= MAX_ACCESS_TOKENS {
      SubsetSize(AccessOf(after.access, s), AccessOf(mid.access, s));
    }
  }

  lemma RenewTimely(st: Auth, d: Id, request: string, tok: Tokens, now: int)
    requires Sound(st) && Timely(st, now) && IsJoined(st, d) && st.refresh[d].consumed.None?
    ensures Renew(st, d, request, tok, now).1.Rotated? ==> Timely(Renew(st, d, request, tok, now).0, now)
  {
    hide Sound, Timely, PruneFamily, PruneExpired, InsertTokens, Consume, Families, FewerAccess;
    var id := st.refresh[d].session;
    var capped := Capped(tok, st.sessions[id].expiresAt);
    var added := InsertTokens(Consume(st, d, Consumption(now, request, tok.refresh, tok.access)), id, capped, now);
    if added.Some? {
      assert Exchanged(st, d, request, capped, now, added.value);
      SoundFamilies(st);
      ExchangeTimely(st, d, request, capped, now, added.value);
      var pruned := PruneFamily(added.value, id, now);
      PruneExpiredShrinks(pruned, now);
      FewerTimely(pruned, PruneExpired(pruned, now), now);
      SeenTimely(PruneExpired(pruned, now), id, now);
    }
  }

  lemma SeenTimely(st: Auth, session: Id, now: int)
    requires Timely(st, now)
    ensures Timely(Seen(st, session, now), now)
  {
  }

  lemma SameAccessTimely(st: Auth, after: Auth, now: int)
    requires Timely(st, now) && after.access == st.access && after.nextRow == st.nextRow
    ensures Timely(after, now)
  {
  }

  lemma RotateTimely(st: Auth, d: Id, installation: string, request: string, tok: Tokens, now: int)
    requires Sound(st) && Timely(st, now)
    ensures Timely(Rotate(st, d, installation, request, tok, now).0, now)
  {
    hide Sound, Timely, PruneStale, PruneExpired, PruneFamily, Renew, FewerAccess, FewerRefresh, Fewer;
    var pruned := PruneStale(st, now);
    PruneStaleIsSound(st, now);
    FewerTimely(st, pruned, now);
    PruneExpiredShrinks(pruned, now);
    FewerTimely(pruned, PruneExpired(pruned, now), now);
    if IsJoined(pruned, d) {
      var id := pruned.refresh[d].session;
      SameAccessTimely(pruned, pruned.(sessions := Revoke(pruned.sessions, {id}, now)), now);
      PruneFamilyShrinks(pruned, id, now);
      FewerTimely(pruned, PruneFamily(pruned, id, now), now);
      PruneExpiredShrinks(PruneFamily(pruned, id, now), now);
      FewerTimely(PruneFamily(pruned, id, now), PruneExpired(PruneFamily(pruned, id, now), now), now);
      if pruned.refresh[d].consumed.None? {
        RenewTimely(pruned, d, request, tok, now);
        RenewOutcome(pruned, d, request, tok, now);
      }
    }
  }

  lemma CreateTimely(st: Auth, account: Id, expected: Id, session: Id, installation: string, tok: Tokens,
                     sessionExpiresAt: int, now: int)
    requires Sound(st) && Timely(st, now)
    ensures Timely(CreateSession(st, account, expected, session, installation, tok, sessionExpiresAt, now).0, now)
  {
    hide Sound, Timely, PruneStale, PruneExpired, PrepareSession, InsertLogin, FewerAccess, FewerRefresh, Fewer;
    var stale := PruneStale(st, now);
    PruneStaleIsSound(st, now);
    FewerTimely(st, stale, now);
    var pruned := PruneExpired(stale, now);
    PruneExpiredIsSound(stale, now);
    FewerTimely(stale, pruned, now);
    var prepared := PrepareSession(pruned, account, installation, now);
    PrepareIsSound(pruned, account, installation, now);
    FewerTimely(pruned, prepared, now);
    SoundIsLinked(prepared);
    if InsertLogin(prepared, session, account, installation, tok, sessionExpiresAt, now).Some? {
      LoginTimely(prepared, session, account, installation, tok, sessionExpiresAt, now);
    }
  }

  lemma RegisterTimely(st: Auth, id: Id, email: string, name: string, hash: Id, session: Id, installation: string,
                       tok: Tokens, sessionExpiresAt: int, now: int)
    requires Sound(st) && Timely(st, now)
    ensures Timely(Register(st, id, email, name, hash, session, installation, tok, sessionExpiresAt, now).0, now)
  {
    hide Sound, Timely, PruneStale, PruneExpired, InsertLogin, FewerAccess, FewerRefresh, Fewer;
    if id !in st.accounts {
      var a := Account(email, name, hash, Active, None, true, now, now);
      var next := st.(accounts := st.accounts[id := a]);
      MoreAccountsIsSound(st, id, a);
      SameAccessTimely(st, next, now);
      var stale := PruneStale(next, now);
      PruneStaleIsSound(next, now);
      FewerTimely(next, stale, now);
      var pruned := PruneExpired(stale, now);
      PruneExpiredIsSound(stale, now);
      FewerTimely(stale, pruned, now);
      SoundIsLinked(pruned);
      if InsertLogin(pruned, session, id, installation, tok, sessionExpiresAt, now).Some? {
        LoginTimely(pruned, session, id, installation, tok, sessionExpiresAt, now);
      }
    }
  }

  lemma ResetTimely(st: Auth, d: Id, request: string, payload: Id, hash: Id, now: int)
    requires Timely(st, now)
    ensures Timely(ConfirmReset(st, d, request, payload, hash, now).0, now)
  {
    hide Timely, StateOf, Supersede, MarkUsed, Revoke;
    FewerTimely(st, ConfirmReset(st, d, request, payload, hash, now).0, now);
  }

  lemma StepTimely(st: Auth, op: Op)
    requires Sound(st) && Timely(st, op.now)
    ensures Timely(Step(st, op), op.now)
  {
    hide Sound, Timely, Rotate, CreateSession, Register, ConfirmReset, SetStatus, PruneActions, Supersede;
    match op
    case OpRegister(id, email, name, hash, session, installation, tokens, sessionExpiresAt, now) =>
      RegisterTimely(st, id, email, name, hash, session, installation, tokens, sessionExpiresAt, now);
    case OpCreateSession(account, expectedHash, session, installation, tokens, sessionExpiresAt, now) =>
      CreateTimely(st, account, expectedHash, session, installation, tokens, sessionExpiresAt, now);
    case OpRotate(d, installation, request, tokens, now) => RotateTimely(st, d, installation, request, tokens, now);
    case OpConfirmReset(d, request, payload, hash, now) => ResetTimely(st, d, request, payload, hash, now);
    case OpSetStatus(account, status, now) =>
      SetStatusTables(st, account, status, now);
      SetStatusRows(st, account, status, now);
      SameAccessTimely(st, Step(st, op), now);
    case _ => SameAccessTimely(st, Step(st, op), op.now);
  }

  lemma SetStatusRows(st: Auth, account: Id, status: Status, now: int)
    ensures SetStatus(st, account, status, now).nextRow == st.nextRow
  {
  }

  ghost predicate ClockGoesOn(ops: seq<Op>) {
    forall i, j :: 0 <= i < j < |ops| ==> ops[i].now <= ops[j].now
  }

  lemma {:induction false} RunTimely(st: Auth, start: int, ops: seq<Op>)
    requires Sound(st) && Timely(st, start) && ClockGoesOn(ops) && forall i :: 0 <= i < |ops| ==> start <= ops[i].now
    ensures Timely(Run(st, ops), if ops == [] then start else ops[|ops| - 1].now)
  {
    hide Sound, Timely, Step;
    if ops != [] {
      var init, last := ops[..|ops| - 1], ops[|ops| - 1];
      assert forall i :: 0 <= i < |init| ==> init[i] == ops[i];
      RunTimely(st, start, init);
      RunIsSound(st, init);
      LaterTimely(Run(st, init), if init == [] then start else init[|init| - 1].now, last.now);
      StepTimely(Run(st, init), last);
    }
  }

  lemma EmptyIsTimely(now: int)
    ensures Timely(EMPTY, now)
  {
    assert forall s :: AccessOf(EMPTY.access, s) == {};
  }

  // While the clock does not go back, a session never holds more than four access tokens.
  lemma FourAccessTokens(ops: seq<Op>, session: Id)
    requires ClockGoesOn(ops)
    ensures |AccessOf(Run(EMPTY, ops).access, session)| <= 4
  {
    hide Run;
    if ops == [] {
      EmptyIsTimely(0);
      RunTimely(EMPTY, 0, ops);
    } else {
      EmptyIsTimely(ops[0].now);
      EmptyIsSound();
      RunTimely(EMPTY, ops[0].now, ops);
    }
  }

  // ---------- Five tokens when the clock goes back ----------

  // One session whose n-th refresh token is live, and its access tokens 1 to n of time 10.
  ghost predicate HoldsTokens(st: Auth, n: nat) {
    && 1 in st.accounts && st.accounts[1].status.Active?
    && 1 in st.sessions && st.sessions[1].account == 1 && st.sessions[1].installation == "d"
    && (forall s :: s in st.sessions ==> s == 1 && st.sessions[s].revokedAt.None? && st.sessions[s].expiresAt == 1000)
    && HoldsAccess(st.access, n) && HoldsRefresh(st.refresh, n)
  }

  ghost predicate HoldsAccess(access: map<Id, Access>, n: nat) {
    && (forall a :: a in access <==> 1 <= a <= n)
    && forall a :: a in access ==> access[a].session == 1 && access[a].expiresAt == 1000 && access[a].createdAt == 10
  }

  ghost predicate HoldsRefresh(refresh: map<Id, Refresh>, n: nat) {
    && n in refresh && refresh[n].consumed.None? && refresh[n].expiresAt == 1000
    && forall d :: d in refresh ==>
         refresh[d].session == 1 && d <= n && (d != n ==> refresh[d].consumed.Some? && refresh[d].consumed.value.refresh <= n)
  }

  function TokensOf(n: nat): Tokens {
    Tokens(n, 0, 1000, n, 0, 1000)
  }

  // The tables before the pruning of a rotation.
  function Renewed(st: Auth, n: nat, now: int): Auth
    requires n in st.refresh
  {
    Consume(st, n, Consumption(now, "r", n + 1, n + 1)).(
      access := st.access[n + 1 := Access(0, 1, now, 1000, st.nextRow)],
      refresh := st.refresh[n := st.refresh[n].(consumed := Some(Consumption(now, "r", n + 1, n + 1)))]
                           [n + 1 := Refresh(0, 1, now, 1000, st.nextRow, None)],
      nextRow := st.nextRow + 1)
  }

  lemma NothingIsStale(st: Auth, n: nat, now: int)
    requires HoldsTokens(st, n) && 0 <= now <= 10
    ensures PruneStale(st, now) == st
  {
    assert ExpiredSessions(st.sessions, now) == {};
    assert Revoke(st.sessions, {}, now) == st.sessions;
    assert StaleSessions(st.sessions, now) == {};
    assert DropSessions(st, {}) == st;
  }

  lemma OneOfOne(stamps: map<Id, Stamp>, x: Id)
    requires stamps.Keys == {x}
    ensures Newest(stamps, 1) == {x}
  {
    assert stamps.Keys == {x} && |stamps| == |stamps.Keys|;
    NewestIsFull(stamps, 1);
  }

  // The family of the renewed session: the new token, its parent, and the access token of both.
  lemma RenewedFamily(st: Auth, n: nat, now: int)
    requires HoldsTokens(st, n) && 0 <= now <= 10
    ensures var after := Renewed(st, n, now); var current := Current(after.refresh, 1, now);
            && current == {n + 1} && Parent(after.refresh, 1, current) == {n}
            && ProtectedAccess(after.refresh, {n}) == {n + 1}
            && EligibleStamps(after.access, 1, {n + 1}, now).Keys == after.access.Keys
  {
    hide HoldsAccess, Newest;
    var after := Renewed(st, n, now);
    RenewedStamps(st, n, now);
    OneOfOne(LiveStamps(after.refresh, 1, now), n + 1);
    OneOfOne(ParentStamps(after.refresh, 1, {n + 1}), n);
    RenewedAccess(st, n, now);
  }

  lemma RenewedStamps(st: Auth, n: nat, now: int)
    requires HoldsTokens(st, n) && 0 <= now <= 10
    ensures LiveStamps(Renewed(st, n, now).refresh, 1, now).Keys == {n + 1}
    ensures ParentStamps(Renewed(st, n, now).refresh, 1, {n + 1}).Keys == {n}
  {
    hide HoldsAccess;
  }

  lemma RenewedAccess(st: Auth, n: nat, now: int)
    requires HoldsTokens(st, n) && 0 <= now <= 10
    ensures EligibleStamps(Renewed(st, n, now).access, 1, {n + 1}, now).Keys == Renewed(st, n, now).access.Keys
  {
    hide HoldsRefresh;
    assert n in st.refresh by { LiveIsThere(st, n); }
  }

  lemma LiveIsThere(st: Auth, n: nat)
    requires HoldsTokens(st, n)
    ensures n in st.refresh
  {
  }

  lemma RotateRenews(st: Auth, n: nat, now: int)
    requires HoldsTokens(st, n) && 0 <= now <= 10
    ensures var after := Renewed(st, n, now);
            Rotate(st, n, "d", "r", TokensOf(n + 1), now).0 == Seen(PruneExpired(PruneFamily(after, 1, now), now), 1, now)
  {
    hide PruneExpired, PruneFamily, PruneStale, Seen;
    NothingIsStale(st, n, now);
  }

  // The family prune keeps these access tokens, the new refresh token and its parent.
  function Pruned(renewed: Auth, n: nat, kept: set<Id>): Auth {
    renewed.(refresh := map d | d in renewed.refresh && d in {n, n + 1} :: renewed.refresh[d],
             access := map a | a in renewed.access && a in kept :: renewed.access[a])
  }

  lemma FamilyIsPruned(st: Auth, n: nat, now: int)
    requires HoldsTokens(st, n) && 0 <= now <= 10
    ensures var renewed := Renewed(st, n, now);
            PruneFamily(renewed, 1, now) == Pruned(renewed, n, KeptAccess(renewed.access, 1, {n + 1}, now))
  {
    hide Current, Parent, ProtectedAccess, KeptAccess;
    RenewedFamily(st, n, now);
    assert {n + 1} + {n} == {n, n + 1};
  }

  lemma NothingExpires(st: Auth, n: nat, now: int, kept: set<Id>)
    requires HoldsTokens(st, n) && 0 <= now <= 10
    ensures var pruned := Pruned(Renewed(st, n, now), n, kept); PruneExpired(pruned, now) == pruned
  {
    hide IsPromised, UsefulRefresh, HoldsRefresh;
    LiveIsThere(st, n);
    var pruned := Pruned(Renewed(st, n, now), n, kept);
    NoRefreshExpires(st, n, now, kept);
    assert forall a :: a in pruned.access ==> pruned.access[a].expiresAt > now;
  }

  lemma NoRefreshExpires(st: Auth, n: nat, now: int, kept: set<Id>)
    requires HoldsTokens(st, n) && 0 <= now <= 10
    ensures var pruned := Pruned(Renewed(st, n, now), n, kept); UsefulRefresh(pruned.refresh, now) == pruned.refresh
  {
    hide HoldsAccess;
    var pruned := Pruned(Renewed(st, n, now), n, kept);
    assert UnexpiredRefresh(pruned.refresh, now) == pruned.refresh;
  }

  // A rotation leaves the access tokens that the family prune keeps.
  lemma RotatedTokens(st: Auth, n: nat, now: int)
    requires HoldsTokens(st, n) && 0 <= now <= 10
    ensures var renewed := Renewed(st, n, now);
            Rotate(st, n, "d", "r", TokensOf(n + 1), now).0
            == Seen(Pruned(renewed, n, KeptAccess(renewed.access, 1, {n + 1}, now)), 1, now)
  {
    hide HoldsTokens, Rotate, PruneFamily, PruneExpired, Seen, Pruned, Renewed, KeptAccess;
    LiveIsThere(st, n);
    RotateRenews(st, n, now);
    FamilyIsPruned(st, n, now);
    NothingExpires(st, n, now, KeptAccess(Renewed(st, n, now).access, 1, {n + 1}, now));
  }

  lemma KeepsAllOfFour(st: Auth, n: nat)
    requires HoldsTokens(st, n) && n < 4
    ensures KeptAccess(Renewed(st, n, 10).access, 1, {n + 1}, 10) == Renewed(st, n, 10).access.Keys
  {
    hide HoldsRefresh, Newest;
    LiveIsThere(st, n);
    var renewed := Renewed(st, n, 10);
    RenewedAccess(st, n, 10);
    var stamps := EligibleStamps(renewed.access, 1, {n + 1}, 10);
    SmallKeys(renewed.access, n + 1);
    assert |stamps| == |stamps.Keys| && |renewed.access| == |renewed.access.Keys|;
    NewestIsFull(stamps, 4);
  }

  lemma {:induction false} SmallKeys(access: map<Id, Access>, n: nat)
    requires forall a :: a in access <==> 1 <= a <= n
    ensures |access| == n
  {
    if n == 0 {
      assert access == map[];
    } else {
      SmallKeys(access - {n}, n - 1);
      assert access == (access - {n})[n := access[n]];
    }
  }

  lemma PrunedHoldsTokens(st: Auth, n: nat)
    requires HoldsTokens(st, n)
    ensures var renewed := Renewed(st, n, 10);
            HoldsTokens(Seen(Pruned(renewed, n, renewed.access.Keys), 1, 10), n + 1)
  {
  }

  // A token of an earlier time is the one a retry needs, and stays beside the four newest.
  lemma EarlierTokenIsFifth(st: Auth)
    requires HoldsTokens(st, 4)
    ensures AccessOf(Rotate(st, 4, "d", "r", TokensOf(5), 5).0.access, 1) == {1, 2, 3, 4, 5}
  {
    hide Newest, Rotate;
    var renewed := Renewed(st, 4, 5);
    var stamps := EligibleStamps(renewed.access, 1, {5}, 5);
    RotatedTokens(st, 4, 5);
    RenewedAccess(st, 4, 5);
    assert renewed.access.Keys == {1, 2, 3, 4, 5};
    FourOlder(stamps);
    assert KeptAccess(renewed.access, 1, {5}, 5) == {1, 2, 3, 4, 5};
  }

  lemma FourOlder(stamps: map<Id, Stamp>)
    requires stamps.Keys == {1, 2, 3, 4, 5}
    requires stamps[5].first == 5 && forall x :: x in {1, 2, 3, 4} ==> x in stamps && stamps[x].first == 10
    ensures {1, 2, 3, 4} <= Newest(stamps, 4) <= {1, 2, 3, 4, 5}
  {
    forall x | x in {1, 2, 3, 4} ensures |Ahead(stamps, x)| < 4 {
      SubsetSize(Ahead(stamps, x), {1, 2, 3, 4});
    }
  }

  lemma RegisteredHoldsTokens()
    ensures HoldsTokens(Step(EMPTY, OpRegister(1, "a", "n", 1, 1, "d", TokensOf(1), 1000, 10)), 1)
  {
    hide PruneStale, PruneExpired;
    var added := EMPTY.(accounts := map[1 := Account("a", "n", 1, Active, None, true, 10, 10)]);
    NothingToPrune(added);
    assert !EmailTaken(EMPTY.accounts, "a");
  }

  lemma NothingToPrune(st: Auth)
    requires st.sessions == map[] && st.access == map[] && st.refresh == map[]
    ensures PruneExpired(PruneStale(st, 10), 10) == st
  {
    assert PruneStale(st, 10) == st;
    assert UsefulRefresh(map[], 10) == map[];
  }

  // Three rotations at the time of the registration, and a fourth after the clock went back,
  // leave five access tokens.
  lemma FiveAccessTokens() returns (ops: seq<Op>)
    ensures |AccessOf(Run(EMPTY, ops).access, 1)| == 5
  {
    hide Step, HoldsTokens;
    ops := [OpRegister(1, "a", "n", 1, 1, "d", TokensOf(1), 1000, 10)];
    RegisteredHoldsTokens();
    assert Run(EMPTY, ops[..|ops| - 1]) == EMPTY;
    for n := 1 to 4
      invariant HoldsTokens(Run(EMPTY, ops), n)
    {
      RotatedAgain(Run(EMPTY, ops), n);
      RunOneMore(ops, OpRotate(n, "d", "r", TokensOf(n + 1), 10));
      ops := ops + [OpRotate(n, "d", "r", TokensOf(n + 1), 10)];
    }
    EarlierTokenIsFifth(Run(EMPTY, ops));
    StepIsRotation(Run(EMPTY, ops), 4, 5);
    RunOneMore(ops, OpRotate(4, "d", "r", TokensOf(5), 5));
    ops := ops + [OpRotate(4, "d", "r", TokensOf(5), 5)];
  }

  lemma RotatedAgain(st: Auth, n: nat)
    requires HoldsTokens(st, n) && n < 4
    ensures HoldsTokens(Step(st, OpRotate(n, "d", "r", TokensOf(n + 1), 10)), n + 1)
  {
    hide HoldsTokens, Rotate, Seen, Pruned, Renewed, KeptAccess;
    LiveIsThere(st, n);
    RotatedTokens(st, n, 10);
    KeepsAllOfFour(st, n);
    PrunedHoldsTokens(st, n);
  }

  lemma StepIsRotation(st: Auth, n: nat, now: int)
    ensures Step(st, OpRotate(n, "d", "r", TokensOf(n + 1), now)) == Rotate(st, n, "d", "r", TokensOf(n + 1), now).0
  {
    hide Rotate;
  }

  lemma RunOneMore(ops: seq<Op>, op: Op)
    ensures Run(EMPTY, ops + [op]) == Step(Run(EMPTY, ops), op)
  {
    hide Step;
    assert (ops + [op])[..|ops|] == ops;
  }
}
