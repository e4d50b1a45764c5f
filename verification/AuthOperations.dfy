/** Each operation of the account database keeps its invariant. */
module AuthOperations {
  import opened Basics
  import opened AuthTables
  import opened AuthMachine
  import opened AuthInvariant

  // ---------- A rotation ----------

  // The tables between the exchange of a token and the prunes.
  predicate Exchanged(st: Auth, digest: Id, request: string, tok: Tokens, now: int, mid: Auth) {
    && digest in st.refresh
    && InsertTokens(Consume(st, digest, Consumption(now, request, tok.refresh, tok.access)),
                    st.refresh[digest].session, tok, now) == Some(mid)
  }

  lemma ExchangeMakesChain(st: Auth, digest: Id, request: string, tok: Tokens, now: int, mid: Auth)
    requires Families(st.refresh, st.access) && Exchanged(st, digest, request, tok, now, mid)
    requires st.refresh[digest].consumed.None?
    ensures OneChain(mid, st.refresh[digest].session)
  {
    var id := st.refresh[digest].session;
    var own := RefreshOf(mid.refresh, id);
    forall d | d in own ensures d == tok.refresh || (d in st.refresh && st.refresh[d].session == id) {
    }
    forall d | d in own && d != tok.refresh && d != digest
      ensures mid.refresh[d] == st.refresh[d] && st.refresh[d].consumed.Some?
      ensures st.refresh[d].consumed.value.refresh == digest
      ensures IsParent(st.refresh, st.access, d)
    {
      assert !SameRole(st.refresh[d], st.refresh[digest]);
      assert IsParent(st.refresh, st.access, d);
      assert SameRole(st.refresh[st.refresh[d].consumed.value.refresh], st.refresh[digest]);
    }
    forall d | d in own && mid.refresh[d].consumed.Some?
      ensures StaysInside(mid, id, mid.refresh[d].consumed.value)
    {
      if d != digest {
        assert IsParent(st.refresh, st.access, d);
      }
    }
    forall d, e | d in own && e in own && SameChild(mid.refresh[d], mid.refresh[e]) ensures d == e {
      if d != digest && e != digest {
        assert SameRole(st.refresh[d], st.refresh[e]);
      }
    }
  }

  // Of the exchanged tokens the prune keeps at most the new one and the one given for it.
  lemma KeptOfExchange(st: Auth, digest: Id, request: string, tok: Tokens, now: int, mid: Auth, d: Id)
    requires Families(st.refresh, st.access) && Exchanged(st, digest, request, tok, now, mid)
    requires st.refresh[digest].consumed.None?
    requires d in mid.refresh && mid.refresh[d].session == st.refresh[digest].session && IsKept(mid.refresh, d, now)
    ensures d == tok.refresh || d == digest
    ensures d == digest ==> IsLive(mid.refresh, tok.refresh, now)
  {
    if d != tok.refresh && d != digest {
      assert !SameRole(st.refresh[d], st.refresh[digest]);
      assert IsParent(st.refresh, st.access, d);
      assert SameRole(st.refresh[st.refresh[d].consumed.value.refresh], st.refresh[digest]);
    }
  }

  lemma ExchangeLinks(st: Auth, digest: Id, request: string, tok: Tokens, now: int, mid: Auth)
    requires Exchanged(st, digest, request, tok, now, mid)
    ensures digest in mid.refresh && mid.refresh[digest].session == st.refresh[digest].session
    ensures mid.refresh[digest].consumed == Some(Consumption(now, request, tok.refresh, tok.access))
    ensures tok.refresh in mid.refresh && mid.refresh[tok.refresh].session == st.refresh[digest].session
    ensures mid.refresh[tok.refresh].consumed.None?
    ensures tok.access in mid.access && mid.access[tok.access].session == st.refresh[digest].session
  {
  }

  lemma ElsewhereUnchanged(st: Auth, digest: Id, request: string, tok: Tokens, now: int, mid: Auth)
    requires Exchanged(st, digest, request, tok, now, mid)
    ensures forall d :: d in mid.refresh && mid.refresh[d].session != st.refresh[digest].session ==>
              d in st.refresh && mid.refresh[d] == st.refresh[d]
    ensures forall d :: d in st.refresh && st.refresh[d].session != st.refresh[digest].session ==>
              d in mid.refresh && mid.refresh[d] == st.refresh[d]
    ensures forall d :: d in st.access ==> d in mid.access && mid.access[d] == st.access[d]
  {
  }

  lemma OwnParent(st: Auth, digest: Id, request: string, tok: Tokens, now: int, mid: Auth, d: Id)
    requires Families(st.refresh, st.access) && Exchanged(st, digest, request, tok, now, mid)
    requires st.refresh[digest].consumed.None?
    requires var after := PruneFamily(mid, st.refresh[digest].session, now);
             d in after.refresh && after.refresh[d].consumed.Some? && after.refresh[d].session == st.refresh[digest].session
    ensures var after := PruneFamily(mid, st.refresh[digest].session, now);
            IsParent(after.refresh, after.access, d)
  {
    var id := st.refresh[digest].session;
    var after := PruneFamily(mid, id, now);
    ExchangeMakesChain(st, digest, request, tok, now, mid);
    PrunedFamilyIs(mid, id, now);
    PruneFamilyShrinks(mid, id, now);
    hide PruneFamily, OneChain, Families, InsertTokens, Consume;
    KeptOfExchange(st, digest, request, tok, now, mid, d);
    ExchangeLinks(st, digest, request, tok, now, mid);
    assert IsSpent(mid.refresh, id, d) && KeepsAccess(mid, after, d);
  }

  lemma OtherParent(st: Auth, digest: Id, request: string, tok: Tokens, now: int, mid: Auth, d: Id)
    requires Families(st.refresh, st.access) && Exchanged(st, digest, request, tok, now, mid)
    requires var after := PruneFamily(mid, st.refresh[digest].session, now);
             d in after.refresh && after.refresh[d].consumed.Some? && after.refresh[d].session != st.refresh[digest].session
    ensures var after := PruneFamily(mid, st.refresh[digest].session, now);
            IsParent(after.refresh, after.access, d)
  {
    var id := st.refresh[digest].session;
    PruneFamilyShrinks(mid, id, now);
    PruneFamilyElsewhere(mid, id, now);
    ElsewhereUnchanged(st, digest, request, tok, now, mid);
    hide PruneFamily, InsertTokens, Consume;
    assert IsParent(st.refresh, st.access, d);
  }

  lemma RotatedParents(st: Auth, digest: Id, request: string, tok: Tokens, now: int, mid: Auth, d: Id)
    requires Families(st.refresh, st.access) && Exchanged(st, digest, request, tok, now, mid)
    requires st.refresh[digest].consumed.None?
    requires var after := PruneFamily(mid, st.refresh[digest].session, now);
             d in after.refresh && after.refresh[d].consumed.Some?
    ensures var after := PruneFamily(mid, st.refresh[digest].session, now);
            IsParent(after.refresh, after.access, d)
  {
    hide PruneFamily, Families, InsertTokens, Consume, IsParent;
    if PruneFamily(mid, st.refresh[digest].session, now).refresh[d].session == st.refresh[digest].session {
      OwnParent(st, digest, request, tok, now, mid, d);
    } else {
      OtherParent(st, digest, request, tok, now, mid, d);
    }
  }

  lemma RotatedRoles(st: Auth, digest: Id, request: string, tok: Tokens, now: int, mid: Auth, d: Id, e: Id)
    requires Families(st.refresh, st.access) && Exchanged(st, digest, request, tok, now, mid)
    requires st.refresh[digest].consumed.None?
    requires var after := PruneFamily(mid, st.refresh[digest].session, now);
             d in after.refresh && e in after.refresh && SameRole(after.refresh[d], after.refresh[e])
    ensures d == e
  {
    var id := st.refresh[digest].session;
    ExchangeMakesChain(st, digest, request, tok, now, mid);
    PrunedFamilyIs(mid, id, now);
    PruneFamilyShrinks(mid, id, now);
    hide PruneFamily, OneChain;
    if mid.refresh[d].session == id {
      KeptOfExchange(st, digest, request, tok, now, mid, d);
      KeptOfExchange(st, digest, request, tok, now, mid, e);
    } else {
      assert SameRole(st.refresh[d], st.refresh[e]);
    }
  }

  lemma RotationKeepsFamilies(st: Auth, digest: Id, request: string, tok: Tokens, now: int, mid: Auth)
    requires Families(st.refresh, st.access) && Exchanged(st, digest, request, tok, now, mid)
    requires st.refresh[digest].consumed.None?
    ensures var after := PruneFamily(mid, st.refresh[digest].session, now); Families(after.refresh, after.access)
  {
    hide PruneFamily, SameRole, InsertTokens, Consume;
    var after := PruneFamily(mid, st.refresh[digest].session, now);
    forall d, e | d in after.refresh && e in after.refresh && SameRole(after.refresh[d], after.refresh[e])
      ensures d == e
    {
      RotatedRoles(st, digest, request, tok, now, mid, d, e);
    }
    forall d | d in after.refresh && after.refresh[d].consumed.Some? ensures IsParent(after.refresh, after.access, d) {
      RotatedParents(st, digest, request, tok, now, mid, d);
    }
  }

  lemma RotationBoundsAccess(st: Auth, digest: Id, request: string, tok: Tokens, now: int, mid: Auth)
    requires BoundedAccess(st.access) && Exchanged(st, digest, request, tok, now, mid)
    ensures BoundedAccess(PruneFamily(mid, st.refresh[digest].session, now).access)
  {
    var id := st.refresh[digest].session;
    var after := PruneFamily(mid, id, now);
    PrunedAccessIsBounded(mid, id, now);
    PruneFamilyShrinks(mid, id, now);
    hide PruneFamily;
    forall s | s != id ensures |AccessOf(after.access, s)| <= MAX_ACCESS_TOKENS + 1 {
      SubsetSize(AccessOf(after.access, s), AccessOf(st.access, s));
    }
  }

  lemma RotationIsSound(st: Auth, digest: Id, request: string, tok: Tokens, now: int, mid: Auth)
    requires Sound(st) && Exchanged(st, digest, request, tok, now, mid) && st.refresh[digest].consumed.None?
    ensures Sound(PruneFamily(mid, st.refresh[digest].session, now))
    ensures PruneFamily(mid, st.refresh[digest].session, now).sessions == st.sessions
  {
    hide Families, GoodSessions, BoundedAccess, PruneFamily;
    RotationKeepsFamilies(st, digest, request, tok, now, mid);
    RotationBoundsAccess(st, digest, request, tok, now, mid);
    PruneFamilyShrinks(mid, st.refresh[digest].session, now);
    SameGoodSessions(st, PruneFamily(mid, st.refresh[digest].session, now));
  }

  lemma SameGoodSessions(st: Auth, after: Auth)
    requires GoodSessions(st) && after.sessions == st.sessions && after.accounts == st.accounts
    ensures GoodSessions(after)
  {
  }

  lemma SeenIsSound(st: Auth, session: Id, now: int)
    requires Sound(st)
    ensures Sound(Seen(st, session, now)) && Shrinks(st, Seen(st, session, now))
  {
    hide Families, GoodSessions, BoundedAccess, ParentsKeepPairs;
    FamiliesKeepPairs(st.refresh, st.access);
    ShrinkingIsSound(st, Seen(st, session, now));
  }

  lemma RenewIsSound(st: Auth, digest: Id, request: string, tok: Tokens, now: int)
    requires Sound(st) && IsJoined(st, digest) && st.refresh[digest].consumed.None?
    ensures Renew(st, digest, request, tok, now).1.Rotated? ==> Sound(Renew(st, digest, request, tok, now).0)
  {
    hide Sound, PruneFamily, PruneExpired, Seen, InsertTokens, Consume;
    var id := st.refresh[digest].session;
    var capped := Capped(tok, st.sessions[id].expiresAt);
    var added := InsertTokens(Consume(st, digest, Consumption(now, request, tok.refresh, tok.access)), id, capped, now);
    if added.Some? {
      assert Exchanged(st, digest, request, capped, now, added.value);
      RotationIsSound(st, digest, request, capped, now, added.value);
      PruneExpiredIsSound(PruneFamily(added.value, id, now), now);
      SeenIsSound(PruneExpired(PruneFamily(added.value, id, now), now), id, now);
    }
  }

  // "refresh replacement is missing", a consumed replacement and an account that is not active
  // cannot occur.
  lemma RetryIsSound(st: Auth, digest: Id, request: string, now: int)
    requires Sound(st) && IsJoined(st, digest) && st.refresh[digest].consumed.Some?
    ensures var r := Retry(st, digest, request, now);
            && Sound(r.0) && !r.1.ReplacementMissing? && !r.1.Unavailable?
            && (r.1.Replayed? <==> st.refresh[digest].consumed.value.requestId != request)
            && (!r.1.Replayed? ==> r.0 == st)
  {
    hide GoodSessions, BoundedAccess;
    assert IsParent(st.refresh, st.access, digest);
    RevokeIsSound(st, {st.refresh[digest].session}, now);
  }

  lemma JoinedIsActive(st: Auth, digest: Id)
    requires Sound(st) && IsJoined(st, digest)
    ensures var s := st.sessions[st.refresh[digest].session];
            s.revokedAt.None? ==> st.accounts[s.account].status.Active?
  {
    hide Families, BoundedAccess, BoundedSessions, OneOpenPerInstallation, Linked;
  }

  lemma ExpiredIsSound(st: Auth, session: Id, now: int)
    requires Sound(st)
    ensures Sound(PruneExpired(PruneFamily(st, session, now), now))
  {
    hide Sound, PruneExpired, PruneFamily;
    PruneFamilyIsSound(st, session, now);
    PruneExpiredIsSound(PruneFamily(st, session, now), now);
  }

  lemma RotateIsSound(st: Auth, digest: Id, installation: string, request: string, tok: Tokens, now: int)
    requires Sound(st)
    ensures var r := Rotate(st, digest, installation, request, tok, now);
            Sound(r.0) && !r.1.ReplacementMissing? && !r.1.Unavailable?
  {
    hide Sound, PruneStale, PruneExpired, PruneFamily, Retry, Renew, Shrinks;
    var pruned := PruneStale(st, now);
    PruneStaleIsSound(st, now);
    PruneExpiredIsSound(pruned, now);
    if IsJoined(pruned, digest) {
      JoinedIsActive(pruned, digest);
      if pruned.refresh[digest].consumed.Some? {
        RetryIsSound(pruned, digest, request, now);
      } else {
        RenewIsSound(pruned, digest, request, tok, now);
        RenewOutcome(pruned, digest, request, tok, now);
        ExpiredIsSound(pruned, pruned.refresh[digest].session, now);
      }
    }
  }

  lemma RenewOutcome(st: Auth, digest: Id, request: string, tok: Tokens, now: int)
    requires IsJoined(st, digest)
    ensures Renew(st, digest, request, tok, now).1.Rotated? || Renew(st, digest, request, tok, now).1.DigestTaken?
  {
  }

  lemma RenewSessions(st: Auth, digest: Id, request: string, tok: Tokens, now: int)
    requires IsJoined(st, digest)
    ensures Fewer(st.sessions, Renew(st, digest, request, tok, now).0.sessions)
  {
    hide PruneFamily, PruneExpired;
    var id := st.refresh[digest].session;
    var capped := Capped(tok, st.sessions[id].expiresAt);
    var added := InsertTokens(Consume(st, digest, Consumption(now, request, tok.refresh, tok.access)), id, capped, now);
    if added.Some? {
      PruneFamilyShrinks(added.value, id, now);
      PruneExpiredShrinks(PruneFamily(added.value, id, now), now);
    }
  }

  // A rotation that leaves anything opens no session, and nothing the first prune revoked.
  lemma RotateSessions(st: Auth, digest: Id, installation: string, request: string, tok: Tokens, now: int)
    ensures var after := Rotate(st, digest, installation, request, tok, now).0;
            after == st || Fewer(PruneStale(st, now).sessions, after.sessions)
  {
    hide PruneStale, PruneExpired, PruneFamily, Renew, Fewer;
    var pruned := PruneStale(st, now);
    PruneExpiredShrinks(pruned, now);
    FewerIsReflexive(pruned.sessions);
    if IsJoined(pruned, digest) {
      var id := pruned.refresh[digest].session;
      RevokedIsFewer(pruned.sessions, {id}, now);
      RenewSessions(pruned, digest, request, tok, now);
      PruneFamilyShrinks(pruned, id, now);
      PruneExpiredShrinks(PruneFamily(pruned, id, now), now);
    }
  }

  lemma FewerIsReflexive(sessions: map<Id, Session>)
    ensures Fewer(sessions, sessions)
  {
  }

  lemma RevokedIsFewer(sessions: map<Id, Session>, ids: set<Id>, now: int)
    ensures Fewer(sessions, Revoke(sessions, ids, now))
  {
  }

  // ---------- A new session ----------

  lemma PrepareIsSound(st: Auth, account: Id, installation: string, now: int)
    requires Sound(st)
    ensures var after := PrepareSession(st, account, installation, now); Sound(after) && Shrinks(st, after)
  {
    hide Sound, Shrinks, RevokeAndDrop, TrimRevoked, Replaced, Overflow;
    var replaced := RevokeAndDrop(st, Replaced(st.sessions, account, installation), now);
    RevokeAndDropIsSound(st, Replaced(st.sessions, account, installation), now);
    var bounded := RevokeAndDrop(replaced, Overflow(replaced.sessions, account), now);
    RevokeAndDropIsSound(replaced, Overflow(replaced.sessions, account), now);
    TrimIsSound(bounded, account);
    ShrinksTransitive(st, replaced, bounded);
    ShrinksTransitive(st, bounded, TrimRevoked(bounded, account));
  }

  lemma TrimIsSound(st: Auth, account: Id)
    requires Sound(st)
    ensures Sound(TrimRevoked(st, account)) && Shrinks(st, TrimRevoked(st, account))
  {
    hide Sound, Shrinks, DropSessions, Newest;
    var stamps := RevokedStamps(st.sessions, account);
    DropSessionsIsSound(st, stamps.Keys - Newest(stamps, MAX_RETAINED_REVOKED));
  }

  // Room for one more: nine open sessions at most, none of this installation, and fifty revoked.
  ghost predicate HasRoom(sessions: map<Id, Session>, account: Id, installation: string) {
    && |OpenOf(sessions, account)| <= MAX_ACTIVE_SESSIONS - 1
    && |SessionsOf(sessions, account)| <= MAX_ACTIVE_SESSIONS - 1 + MAX_RETAINED_REVOKED
    && forall s :: s in OpenOf(sessions, account) ==> s in sessions && sessions[s].installation != installation
  }

  lemma OverflowLeavesNine(sessions: map<Id, Session>, account: Id, now: int)
    ensures var after := Revoke(sessions, Overflow(sessions, account), now);
            |OpenOf(after, account)| <= MAX_ACTIVE_SESSIONS - 1
  {
    var stamps := OpenStamps(sessions, account);
    assert DistinctStamps(stamps);
    NewestIsBounded(stamps, MAX_ACTIVE_SESSIONS - 1);
    hide Newest;
    SubsetSize(OpenOf(Revoke(sessions, Overflow(sessions, account), now), account),
               Newest(stamps, MAX_ACTIVE_SESSIONS - 1));
  }

  lemma TrimLeavesFifty(st: Auth, account: Id)
    ensures var after := TrimRevoked(st, account).sessions;
            && OpenOf(after, account) == OpenOf(st.sessions, account)
            && |SessionsOf(after, account)| <= |OpenOf(st.sessions, account)| + MAX_RETAINED_REVOKED
  {
    var stamps := RevokedStamps(st.sessions, account);
    assert DistinctStamps(stamps);
    NewestIsBounded(stamps, MAX_RETAINED_REVOKED);
    hide Newest;
    var after := TrimRevoked(st, account).sessions;
    assert OpenOf(after, account) == OpenOf(st.sessions, account);
    SubsetSize(SessionsOf(after, account), OpenOf(st.sessions, account) + Newest(stamps, MAX_RETAINED_REVOKED));
  }

  lemma ReplacedAreGone(sessions: map<Id, Session>, account: Id, installation: string, now: int)
    ensures var after := Revoke(sessions, Replaced(sessions, account, installation), now);
            forall s :: s in OpenOf(after, account) ==> s in after && after[s].installation != installation
  {
  }

  lemma FewerOpen(sessions: map<Id, Session>, ids: set<Id>, now: int, account: Id, installation: string)
    requires forall s :: s in OpenOf(sessions, account) ==> s in sessions && sessions[s].installation != installation
    ensures var after := Revoke(sessions, ids, now);
            forall s :: s in OpenOf(after, account) ==> s in after && after[s].installation != installation
  {
  }

  lemma TrimKeepsOpen(st: Auth, account: Id, installation: string)
    requires forall s :: s in OpenOf(st.sessions, account) ==> s in st.sessions && st.sessions[s].installation != installation
    ensures var after := TrimRevoked(st, account).sessions;
            forall s :: s in OpenOf(after, account) ==> s in after && after[s].installation != installation
  {
    hide Newest;
  }

  lemma PrepareMakesRoom(st: Auth, account: Id, installation: string, now: int)
    ensures HasRoom(PrepareSession(st, account, installation, now).sessions, account, installation)
  {
    hide Overflow, Replaced, OpenOf, SessionsOf, TrimRevoked, Revoke;
    var replaced := RevokeAndDrop(st, Replaced(st.sessions, account, installation), now);
    ReplacedAreGone(st.sessions, account, installation, now);
    var bounded := RevokeAndDrop(replaced, Overflow(replaced.sessions, account), now);
    OverflowLeavesNine(replaced.sessions, account, now);
    FewerOpen(replaced.sessions, Overflow(replaced.sessions, account), now, account, installation);
    TrimLeavesFifty(bounded, account);
    TrimKeepsOpen(bounded, account, installation);
  }

  lemma NewSessionCounts(sessions: map<Id, Session>, id: Id, s: Session, a: Id)
    requires BoundedSessions(sessions) && id !in sessions && HasRoom(sessions, s.account, s.installation)
    ensures var after := sessions[id := s];
            |OpenOf(after, a)| <= MAX_ACTIVE_SESSIONS && |SessionsOf(after, a)| <= MAX_ACTIVE_SESSIONS + MAX_RETAINED_REVOKED
  {
    var after := sessions[id := s];
    var extra := if a == s.account then {id} else {};
    SubsetSize(OpenOf(after, a), OpenOf(sessions, a) + extra);
    SubsetSize(SessionsOf(after, a), SessionsOf(sessions, a) + extra);
    assert |OpenOf(sessions, a) + extra| <= |OpenOf(sessions, a)| + |extra|;
    assert |SessionsOf(sessions, a) + extra| <= |SessionsOf(sessions, a)| + |extra|;
  }

  lemma NewSessionAlone(sessions: map<Id, Session>, id: Id, s: Session)
    requires OneOpenPerInstallation(sessions) && id !in sessions && HasRoom(sessions, s.account, s.installation)
    ensures OneOpenPerInstallation(sessions[id := s])
  {
    forall x | x in sessions ensures !OpenTogether(sessions[x], s) && !OpenTogether(s, sessions[x]) {
      assert sessions[x].revokedAt.None? && sessions[x].account == s.account ==> x in OpenOf(sessions, s.account);
    }
  }

  lemma NewSessionBounds(sessions: map<Id, Session>, id: Id, s: Session)
    requires BoundedSessions(sessions) && OneOpenPerInstallation(sessions)
    requires id !in sessions && HasRoom(sessions, s.account, s.installation)
    ensures BoundedSessions(sessions[id := s]) && OneOpenPerInstallation(sessions[id := s])
  {
    NewSessionAlone(sessions, id, s);
    hide OneOpenPerInstallation, HasRoom, OpenOf, SessionsOf;
    var after := sessions[id := s];
    forall a
      ensures |OpenOf(after, a)| <= MAX_ACTIVE_SESSIONS && |SessionsOf(after, a)| <= MAX_ACTIVE_SESSIONS + MAX_RETAINED_REVOKED
    {
      NewSessionCounts(sessions, id, s, a);
    }
  }

  lemma NewTokensBounds(st: Auth, id: Id, tok: Tokens, now: int)
    requires Families(st.refresh, st.access) && BoundedAccess(st.access)
    requires (forall d :: d in st.access ==> st.access[d].session != id) && (forall d :: d in st.refresh ==> st.refresh[d].session != id)
    ensures var r := InsertTokens(st, id, tok, now);
            r.Some? ==> Families(r.value.refresh, r.value.access) && BoundedAccess(r.value.access)
  {
    var r := InsertTokens(st, id, tok, now);
    if r.Some? {
      forall d | d in r.value.refresh && r.value.refresh[d].consumed.Some?
        ensures IsParent(r.value.refresh, r.value.access, d)
      {
        assert IsParent(st.refresh, st.access, d);
      }
      forall d, e | d in r.value.refresh && e in r.value.refresh && SameRole(r.value.refresh[d], r.value.refresh[e])
        ensures d == e
      {
        assert d != tok.refresh && e != tok.refresh ==> SameRole(st.refresh[d], st.refresh[e]);
      }
      forall s ensures |AccessOf(r.value.access, s)| <= MAX_ACCESS_TOKENS + 1 {
        if s == id {
          assert AccessOf(r.value.access, s) == {tok.access};
        } else {
          assert AccessOf(r.value.access, s) == AccessOf(st.access, s);
        }
      }
    }
  }

  lemma InsertLoginIsSound(st: Auth, id: Id, account: Id, installation: string, tok: Tokens, expiresAt: int, now: int)
    requires Sound(st) && account in st.accounts && st.accounts[account].status.Active?
    requires HasRoom(st.sessions, account, installation)
    ensures var r := InsertLogin(st, id, account, installation, tok, expiresAt, now); r.Some? ==> Sound(r.value)
  {
    hide Families, BoundedAccess, BoundedSessions, OneOpenPerInstallation, HasRoom;
    if id !in st.sessions {
      var s := Session(account, installation, now, now, expiresAt, None);
      NewSessionBounds(st.sessions, id, s);
      NewTokensBounds(st.(sessions := st.sessions[id := s]), id, tok, now);
    }
  }

  lemma CreateSessionIsSound(st: Auth, account: Id, expected: Id, session: Id, installation: string, tok: Tokens,
                             sessionExpiresAt: int, now: int)
    requires Sound(st)
    ensures Sound(CreateSession(st, account, expected, session, installation, tok, sessionExpiresAt, now).0)
  {
    hide Sound, PruneStale, PruneExpired, PrepareSession, InsertLogin, HasRoom, Fewer, FewerAccess, FewerRefresh;
    PruneStaleIsSound(st, now);
    PruneExpiredIsSound(PruneStale(st, now), now);
    var pruned := PruneExpired(PruneStale(st, now), now);
    PrepareIsSound(pruned, account, installation, now);
    PrepareMakesRoom(pruned, account, installation, now);
    var prepared := PrepareSession(pruned, account, installation, now);
    if account in st.accounts && st.accounts[account].status.Active? {
      InsertLoginIsSound(prepared, session, account, installation, tok, sessionExpiresAt, now);
    }
  }

  // ---------- Accounts ----------

  lemma MoreAccountsIsSound(st: Auth, id: Id, a: Account)
    requires Sound(st) && id !in st.accounts
    ensures Sound(st.(accounts := st.accounts[id := a]))
  {
    hide Families, BoundedAccess, BoundedSessions, OneOpenPerInstallation;
  }

  lemma UpdatedAccountIsSound(st: Auth, id: Id, a: Account)
    requires Sound(st) && id in st.accounts && (st.accounts[id].status.Active? ==> a.status.Active?)
    ensures Sound(st.(accounts := st.accounts[id := a]))
  {
    hide Families, BoundedAccess, BoundedSessions, OneOpenPerInstallation;
  }

  lemma ClosedAccountIsSound(st: Auth, id: Id, a: Account)
    requires Sound(st) && id in st.accounts && OpenOf(st.sessions, id) == {}
    ensures Sound(st.(accounts := st.accounts[id := a]))
  {
    hide Families, BoundedAccess, BoundedSessions, OneOpenPerInstallation;
    forall s | s in st.sessions && st.sessions[s].revokedAt.None? ensures st.sessions[s].account != id {
      assert st.sessions[s].account == id ==> s in OpenOf(st.sessions, id);
    }
  }

  lemma AllRevoked(sessions: map<Id, Session>, account: Id, now: int)
    ensures OpenOf(Revoke(sessions, OpenOf(sessions, account), now), account) == {}
  {
  }

  lemma SetStatusIsSound(st: Auth, account: Id, status: Status, now: int)
    requires Sound(st)
    ensures Sound(SetStatus(st, account, status, now))
  {
    hide Sound, Shrinks, Revoke, OpenOf;
    RevokeIsSound(st, OpenOf(st.sessions, account), now);
    AllRevoked(st.sessions, account, now);
    if account in st.accounts {
      var a := st.accounts[account].(status := status, updatedAt := now);
      if status.Active? {
        UpdatedAccountIsSound(st, account, a);
      } else {
        ClosedAccountIsSound(st.(sessions := Revoke(st.sessions, OpenOf(st.sessions, account), now)), account, a);
      }
    }
  }

  lemma EmptyRoom(st: Auth, id: Id, installation: string)
    requires Linked(st) && id !in st.accounts
    ensures HasRoom(st.sessions, id, installation)
  {
    assert OpenOf(st.sessions, id) == {} && SessionsOf(st.sessions, id) == {};
  }

  lemma FewerRoom(before: map<Id, Session>, after: map<Id, Session>, account: Id, installation: string)
    requires HasRoom(before, account, installation) && Fewer(before, after)
    ensures HasRoom(after, account, installation)
  {
    SubsetSize(OpenOf(after, account), OpenOf(before, account));
    SubsetSize(SessionsOf(after, account), SessionsOf(before, account));
  }

  lemma RegisterIsSound(st: Auth, id: Id, email: string, name: string, hash: Id, session: Id, installation: string,
                        tok: Tokens, sessionExpiresAt: int, now: int)
    requires Sound(st)
    ensures Sound(Register(st, id, email, name, hash, session, installation, tok, sessionExpiresAt, now).0)
  {
    hide Sound, PruneStale, PruneExpired, InsertLogin, HasRoom, Fewer, FewerAccess, FewerRefresh;
    if id !in st.accounts {
      var a := Account(email, name, hash, Active, None, true, now, now);
      var next := st.(accounts := st.accounts[id := a]);
      MoreAccountsIsSound(st, id, a);
      assert Linked(st) by { SoundIsLinked(st); }
      EmptyRoom(st, id, installation);
      PruneStaleIsSound(next, now);
      PruneExpiredIsSound(PruneStale(next, now), now);
      PruneExpiredShrinks(PruneStale(next, now), now);
      var pruned := PruneExpired(PruneStale(next, now), now);
      FewerRoom(next.sessions, pruned.sessions, id, installation);
      InsertLoginIsSound(pruned, session, id, installation, tok, sessionExpiresAt, now);
    }
  }

  lemma SoundIsLinked(st: Auth)
    requires Sound(st)
    ensures Linked(st)
  {
    hide Linked;
  }

  // ---------- Action tokens ----------

  lemma NewActionsIsSound(st: Auth, actions: map<Id, Action>)
    requires Sound(st) && forall d :: d in actions ==> actions[d].account in st.accounts
    ensures Sound(st.(actions := actions))
  {
    hide Families, BoundedAccess, BoundedSessions, OneOpenPerInstallation;
  }

  lemma IssueIsSound(st: Auth, account: Id, purpose: Purpose, digest: Id, nonce: Id, expiresAt: int, now: int)
    requires Sound(st) && account in st.accounts
    ensures Sound(IssueOrFail(st, account, purpose, digest, nonce, expiresAt, now).0)
  {
    SoundIsLinked(st);
    hide Sound;
    var r := Issue(st, account, purpose, digest, nonce, expiresAt, now);
    if r.Some? {
      NewActionsIsSound(st, r.value.actions);
    }
  }

  lemma ResetIsSound(st: Auth, account: Id, digest: Id, request: string, payload: Id, hash: Id, now: int)
    requires Sound(st) && account in st.accounts
    ensures Sound(ResetPassword(st, account, digest, request, payload, hash, now))
  {
    hide Sound, Revoke, DropTokens;
    var a := st.accounts[account].(passwordHash := hash, updatedAt := now);
    UpdatedAccountIsSound(st, account, a);
    var updated := st.(accounts := st.accounts[account := a]);
    RevokeIsSound(updated, OpenOf(st.sessions, account), now);
    var revoked := updated.(sessions := Revoke(st.sessions, OpenOf(st.sessions, account), now));
    DropTokensIsSound(revoked, SessionsOf(st.sessions, account));
    var dropped := DropTokens(revoked, SessionsOf(st.sessions, account));
    SoundIsLinked(dropped);
    DropKeepsActions(revoked, SessionsOf(st.sessions, account));
    NewActionsIsSound(dropped, MarkUsed(st.actions, digest, Use(now, request, payload)));
  }

  lemma DropKeepsActions(st: Auth, ids: set<Id>)
    ensures DropTokens(st, ids).actions == st.actions && DropTokens(st, ids).accounts == st.accounts
  {
  }

  lemma DropTokensIsSound(st: Auth, ids: set<Id>)
    requires Sound(st)
    ensures Sound(DropTokens(st, ids))
  {
    hide Families, GoodSessions, BoundedAccess, ParentsKeepPairs;
    DroppedPairs(st, ids);
    ShrinkingIsSound(st, DropTokens(st, ids));
  }

  lemma ConfirmEmailIsSound(st: Auth, digest: Id, account: Id, request: string, payload: Id, now: int)
    requires Sound(st)
    ensures Sound(ConfirmEmail(st, digest, account, request, payload, now).0)
  {
    SoundIsLinked(st);
    hide Sound;
    if StateOf(st, digest, EmailVerification, Some(account), request, payload, now).TokenActive? {
      var a := st.accounts[account];
      var verified := a.(verifiedAt := if a.verifiedAt.Some? then a.verifiedAt else Some(now), updatedAt := now);
      UpdatedAccountIsSound(st, account, verified);
      NewActionsIsSound(st.(accounts := st.accounts[account := verified]),
                        MarkUsed(st.actions, digest, Use(now, request, payload)));
    }
  }

  lemma ConfirmResetIsSound(st: Auth, digest: Id, request: string, payload: Id, hash: Id, now: int)
    requires Sound(st)
    ensures Sound(ConfirmReset(st, digest, request, payload, hash, now).0)
  {
    hide Sound, ResetPassword;
    if StateOf(st, digest, PasswordReset, None, request, payload, now).TokenActive? {
      var account := st.actions[digest].account;
      ResetIsSound(st, account, digest, request, payload, hash, now);
      var reset := ResetPassword(st, account, digest, request, payload, hash, now);
      SoundIsLinked(reset);
      NewActionsIsSound(reset, Supersede(reset.actions, account, PasswordReset, {digest}, now));
    }
  }

  // ---------- Every step and every run ----------

  lemma CreateAccountIsSound(st: Auth, id: Id, email: string, name: string, hash: Id, now: int)
    requires Sound(st)
    ensures Sound(CreateAccount(st, id, email, name, hash, now).0)
  {
    hide Sound, EmailTaken;
    if id !in st.accounts {
      MoreAccountsIsSound(st, id, Account(email, name, hash, Active, None, false, now, now));
    }
  }

  lemma UpdateHashIsSound(st: Auth, account: Id, encoded: Id, expected: Option<Id>, now: int)
    requires Sound(st)
    ensures Sound(UpdateHash(st, account, encoded, expected, now).0)
  {
    hide Sound;
    if account in st.accounts {
      UpdatedAccountIsSound(st, account, st.accounts[account].(passwordHash := encoded, updatedAt := now));
    }
  }

  lemma LogoutIsSound(st: Auth, digest: Id, now: int)
    requires Sound(st)
    ensures Sound(Logout(st, digest, now))
  {
    hide Sound, Revoke, Fewer, FewerAccess, FewerRefresh;
    SoundIsLinked(st);
    if digest in st.access {
      RevokeIsSound(st, {st.access[digest].session}, now);
    }
  }

  lemma IssueForAccountIsSound(st: Auth, account: Id, purpose: Purpose, digest: Id, nonce: Id, expiresAt: int, now: int)
    requires Sound(st)
    ensures Sound(IssueForAccount(st, account, purpose, digest, nonce, expiresAt, now).0)
  {
    hide Sound, IssueOrFail;
    if account in st.accounts {
      IssueIsSound(st, account, purpose, digest, nonce, expiresAt, now);
    }
  }

  lemma IssueForEmailIsSound(st: Auth, email: string, purpose: Purpose, digest: Id, nonce: Id, expiresAt: int, now: int)
    requires Sound(st)
    ensures Sound(IssueForEmail(st, email, purpose, digest, nonce, expiresAt, now).0)
  {
    hide Sound, IssueOrFail;
    SoundIsLinked(st);
    NewActionsIsSound(st, PruneActions(st.actions, now));
    var a := ActiveAccount(st.accounts, email);
    if a.Some? {
      IssueIsSound(st, a.value, purpose, digest, nonce, expiresAt, now);
    }
  }

  lemma StepIsSound(st: Auth, op: Op)
    requires Sound(st)
    ensures Sound(Step(st, op))
  {
    hide Sound, CreateAccount, UpdateHash, Logout, Rotate, CreateSession, Register, ConfirmEmail, ConfirmReset,
         SetStatus,
         IssueForAccount, IssueForEmail;
    match op
    case OpCreateAccount(id, email, name, hash, now) => CreateAccountIsSound(st, id, email, name, hash, now);
    case OpRegister(id, email, name, hash, session, installation, tokens, sessionExpiresAt, now) =>
      RegisterIsSound(st, id, email, name, hash, session, installation, tokens, sessionExpiresAt, now);
    case OpUpdateHash(account, encoded, expected, now) => UpdateHashIsSound(st, account, encoded, expected, now);
    case OpSetStatus(account, status, now) => SetStatusIsSound(st, account, status, now);
    case OpCreateSession(account, expectedHash, session, installation, tokens, sessionExpiresAt, now) =>
      CreateSessionIsSound(st, account, expectedHash, session, installation, tokens, sessionExpiresAt, now);
    case OpLogout(digest, now) => LogoutIsSound(st, digest, now);
    case OpRotate(digest, installation, request, tokens, now) => RotateIsSound(st, digest, installation, request, tokens, now);
    case OpIssueForAccount(account, purpose, digest, nonce, expiresAt, now) =>
      IssueForAccountIsSound(st, account, purpose, digest, nonce, expiresAt, now);
    case OpIssueForEmail(email, purpose, digest, nonce, expiresAt, now) =>
      IssueForEmailIsSound(st, email, purpose, digest, nonce, expiresAt, now);
    case OpConfirmEmail(digest, account, request, payload, now) => ConfirmEmailIsSound(st, digest, account, request, payload, now);
    case OpConfirmReset(digest, request, payload, hash, now) => ConfirmResetIsSound(st, digest, request, payload, hash, now);
  }

  lemma {:induction false} RunIsSound(st: Auth, ops: seq<Op>)
    requires Sound(st)
    ensures Sound(Run(st, ops))
  {
    hide Sound, Step;
    if ops != [] {
      RunIsSound(st, ops[..|ops| - 1]);
      StepIsSound(Run(st, ops[..|ops| - 1]), ops[|ops| - 1]);
    }
  }

  lemma EmptyIsSound()
    ensures Sound(EMPTY)
  {
    assert forall a :: OpenOf(EMPTY.sessions, a) == {} && SessionsOf(EMPTY.sessions, a) == {};
    assert forall s :: AccessOf(EMPTY.access, s) == {};
  }

  lemma RefreshIsBounded(st: Auth, session: Id)
    requires Families(st.refresh, st.access)
    ensures |RefreshOf(st.refresh, session)| <= 2
  {
    var own := RefreshOf(st.refresh, session);
    var unspent := set d | d in own && st.refresh[d].consumed.None?;
    var spent := set d | d in own && st.refresh[d].consumed.Some?;
    AtMostOneMember(unspent);
    AtMostOneMember(spent);
    assert own == unspent + spent;
    assert |unspent + spent| <= |unspent| + |spent|;
  }

  lemma AtMostOneMember(s: set<Id>)
    requires forall x, y :: x in s && y in s ==> x == y
    ensures |s| <= 1
  {
    if s != {} {
      var x :| x in s;
      assert s == {x};
    }
  }

  // In every state the account database can reach: at most ten open sessions of an account, one
  // per installation, sixty session rows, two refresh tokens and five access tokens of a session;
  // and a rotation is never answered that its replacement is missing or its account unavailable.
  lemma ReachableTablesAreBounded(ops: seq<Op>, account: Id, session: Id, digest: Id, installation: string,
                                  request: string, tok: Tokens, now: int)
    ensures var st := Run(EMPTY, ops);
            && Families(st.refresh, st.access)
            && |OpenOf(st.sessions, account)| <= 10 && |SessionsOf(st.sessions, account)| <= 60
            && |Replaced(st.sessions, account, installation)| <= 1
            && |RefreshOf(st.refresh, session)| <= 2 && |AccessOf(st.access, session)| <= 5
            && var outcome := Rotate(st, digest, installation, request, tok, now).1;
               !outcome.ReplacementMissing? && !outcome.Unavailable?
  {
    var st := Run(EMPTY, ops);
    EmptyIsSound();
    RunIsSound(EMPTY, ops);
    RotateIsSound(st, digest, installation, request, tok, now);
    RefreshIsBounded(st, session);
    hide Rotate, Run;
    AtMostOneMember(Replaced(st.sessions, account, installation));
  }

  // ---------- What the operations do to accounts ----------

  lemma RotateAccounts(st: Auth, d: Id, installation: string, request: string, tok: Tokens, now: int)
    ensures Rotate(st, d, installation, request, tok, now).0.accounts == st.accounts
  {
    hide UsefulRefresh, KeptAccess, Current, Parent, Revoke, StaleSessions, ExpiredSessions;
  }

  predicate LeavesPasswords(op: Op) {
    !op.OpCreateSession? && !op.OpUpdateHash? && !op.OpRegister? && !op.OpCreateAccount? && !op.OpConfirmReset?
  }

  predicate SamePasswords(before: map<Id, Account>, after: map<Id, Account>) {
    before.Keys == after.Keys
    && forall a :: a in before ==> after[a].passwordHash == before[a].passwordHash && after[a].email == before[a].email
  }

  lemma EmailKeepsPasswords(st: Auth, d: Id, account: Id, request: string, payload: Id, now: int)
    ensures SamePasswords(st.accounts, ConfirmEmail(st, d, account, request, payload, now).0.accounts)
  {
  }

  lemma StatusKeepsPasswords(st: Auth, account: Id, status: Status, now: int)
    ensures SamePasswords(st.accounts, SetStatus(st, account, status, now).accounts)
  {
    hide Revoke;
  }

  lemma IssueKeepsAccounts(st: Auth, account: Id, purpose: Purpose, digest: Id, nonce: Id, expiresAt: int, now: int)
    ensures IssueOrFail(st, account, purpose, digest, nonce, expiresAt, now).0.accounts == st.accounts
  {
    hide Supersede, PruneActions;
  }

  lemma PasswordsStay(st: Auth, op: Op)
    requires LeavesPasswords(op)
    ensures SamePasswords(st.accounts, Step(st, op).accounts)
  {
    hide Rotate, Revoke, PruneActions, Supersede, MarkUsed, ConfirmEmail, SetStatus, IssueOrFail;
    if op.OpConfirmEmail? {
      EmailKeepsPasswords(st, op.digest, op.account, op.request, op.payload, op.now);
    } else if op.OpSetStatus? {
      StatusKeepsPasswords(st, op.account, op.status, op.now);
    } else if op.OpIssueForAccount? {
      IssueKeepsAccounts(st, op.account, op.purpose, op.digest, op.nonce, op.expiresAt, op.now);
    } else if op.OpIssueForEmail? {
      var a := ActiveAccount(st.accounts, op.email);
      if a.Some? {
        IssueKeepsAccounts(st, a.value, op.purpose, op.digest, op.nonce, op.expiresAt, op.now);
      }
    } else if op.OpRotate? {
      RotateAccounts(st, op.digest, op.installation, op.request, op.tokens, op.now);
    }
  }

  lemma CreateAccounts(st: Auth, account: Id, expected: Id, session: Id, installation: string, tok: Tokens,
                       sessionExpiresAt: int, now: int)
    ensures var r := CreateSession(st, account, expected, session, installation, tok, sessionExpiresAt, now);
            && r.0.accounts == st.accounts
            && (r.1.SessionOpened? ==> account in st.accounts && st.accounts[account].passwordHash == expected
                                       && session in r.0.sessions && r.0.sessions[session].account == account)
            && (!r.1.SessionOpened? ==> r.0 == st)
  {
    hide UsefulRefresh, Revoke, StaleSessions, ExpiredSessions, Newest, RevokedStamps, Overflow, Replaced;
  }

  lemma RegisterResult(st: Auth, id: Id, email: string, name: string, hash: Id, session: Id, installation: string,
                       tok: Tokens, sessionExpiresAt: int, now: int)
    ensures var r := Register(st, id, email, name, hash, session, installation, tok, sessionExpiresAt, now);
            && (r.1.AccountCreated? ==>
                  && id !in st.accounts && !EmailTaken(st.accounts, email)
                  && r.0.accounts == st.accounts[id := Account(email, name, hash, Active, None, true, now, now)]
                  && session in r.0.sessions && r.0.sessions[session].account == id)
            && (!r.1.AccountCreated? ==> r.0 == st)
  {
    hide UsefulRefresh, Revoke, StaleSessions, ExpiredSessions;
  }

  lemma ResetResult(st: Auth, d: Id, request: string, payload: Id, hash: Id, now: int)
    requires ConfirmReset(st, d, request, payload, hash, now).1.ActionConsumed?
    ensures var r := ConfirmReset(st, d, request, payload, hash, now); var account := r.1.account;
            && account in st.accounts
            && r.0.accounts == st.accounts[account := st.accounts[account].(passwordHash := hash, updatedAt := now)]
            && OpenOf(r.0.sessions, account) == {}
  {
    hide Supersede, MarkUsed;
  }
}
