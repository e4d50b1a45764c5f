/** What every operation on the account database keeps: token families closed under rotation and
    both prunes, bounded sessions and tokens, and no open session of a closed account. */
module AuthInvariant {
  import opened Basics
  import opened AuthTables
  import opened AuthMachine

  // ---------- The invariant ----------

  ghost predicate Linked(st: Auth) {
    && (forall d :: d in st.access ==> st.access[d].session in st.sessions)
    && (forall d :: d in st.refresh ==> st.refresh[d].session in st.sessions)
    && (forall s :: s in st.sessions ==> st.sessions[s].account in st.accounts)
    && (forall d :: d in st.actions ==> st.actions[d].account in st.accounts)
  }

  // A consumed token was exchanged for the current pair of its session.
  ghost predicate IsParent(refresh: map<Id, Refresh>, access: map<Id, Access>, d: Id)
    requires d in refresh && refresh[d].consumed.Some?
  {
    var use := refresh[d].consumed.value;
    && use.refresh in refresh && refresh[use.refresh].session == refresh[d].session
    && refresh[use.refresh].consumed.None?
    && use.access in access && access[use.access].session == refresh[d].session
  }

  predicate SameRole(a: Refresh, b: Refresh) {
    a.session == b.session && a.consumed.Some? == b.consumed.Some?
  }

  // A session has at most one unconsumed refresh token and one consumed parent of it.
  ghost predicate Families(refresh: map<Id, Refresh>, access: map<Id, Access>) {
    && (forall d, e :: d in refresh && e in refresh && SameRole(refresh[d], refresh[e]) ==> d == e)
    && (forall d :: d in refresh && refresh[d].consumed.Some? ==> IsParent(refresh, access, d))
  }

  ghost predicate OpenAccountsActive(st: Auth) {
    forall s :: s in st.sessions && st.sessions[s].revokedAt.None? ==>
      st.sessions[s].account in st.accounts && st.accounts[st.sessions[s].account].status.Active?
  }

  predicate OpenTogether(a: Session, b: Session) {
    a.revokedAt.None? && b.revokedAt.None? && a.account == b.account && a.installation == b.installation
  }

  ghost predicate OneOpenPerInstallation(sessions: map<Id, Session>) {
    forall s, t :: s in sessions && t in sessions && OpenTogether(sessions[s], sessions[t]) ==> s == t
  }

  ghost predicate BoundedSessions(sessions: map<Id, Session>) {
    forall a :: |OpenOf(sessions, a)| <= MAX_ACTIVE_SESSIONS
                && |SessionsOf(sessions, a)| <= MAX_ACTIVE_SESSIONS + MAX_RETAINED_REVOKED
  }

  function AccessOf(access: map<Id, Access>, session: Id): set<Id> {
    set d | d in access && access[d].session == session
  }

  function RefreshOf(refresh: map<Id, Refresh>, session: Id): set<Id> {
    set d | d in refresh && refresh[d].session == session
  }

  ghost predicate BoundedAccess(access: map<Id, Access>) {
    forall s :: |AccessOf(access, s)| <= MAX_ACCESS_TOKENS + 1
  }

  ghost predicate GoodSessions(st: Auth) {
    OpenAccountsActive(st) && OneOpenPerInstallation(st.sessions) && BoundedSessions(st.sessions)
  }

  ghost predicate Sound(st: Auth) {
    Linked(st) && Families(st.refresh, st.access) && GoodSessions(st) && BoundedAccess(st.access)
  }

  // ---------- Fewer rows ----------

  // A session goes on as it was: it may be revoked or seen again.
  predicate Continues(before: Session, after: Session) {
    && after.account == before.account && after.installation == before.installation
    && after.expiresAt == before.expiresAt && (after.revokedAt.None? ==> before.revokedAt.None?)
  }

  // Sessions are only revoked, seen again or deleted.
  ghost predicate Fewer(before: map<Id, Session>, after: map<Id, Session>) {
    forall s :: s in after ==> s in before && Continues(before[s], after[s])
  }

  lemma FewerSessions(before: map<Id, Session>, after: map<Id, Session>)
    requires Fewer(before, after)
    ensures OneOpenPerInstallation(before) ==> OneOpenPerInstallation(after)
    ensures BoundedSessions(before) ==> BoundedSessions(after)
    ensures forall a :: |SessionsOf(after, a)| <= |SessionsOf(before, a)| && |OpenOf(after, a)| <= |OpenOf(before, a)|
  {
    forall a ensures |SessionsOf(after, a)| <= |SessionsOf(before, a)| && |OpenOf(after, a)| <= |OpenOf(before, a)| {
      SubsetSize(OpenOf(after, a), OpenOf(before, a));
      SubsetSize(SessionsOf(after, a), SessionsOf(before, a));
    }
  }

  ghost predicate FewerAccess(before: map<Id, Access>, after: map<Id, Access>) {
    forall d :: d in after ==> d in before && after[d] == before[d]
  }

  lemma FewerAccessBounded(before: map<Id, Access>, after: map<Id, Access>)
    requires FewerAccess(before, after) && BoundedAccess(before)
    ensures BoundedAccess(after)
  {
    forall s ensures |AccessOf(after, s)| <= MAX_ACCESS_TOKENS + 1 {
      SubsetSize(AccessOf(after, s), AccessOf(before, s));
    }
  }

  ghost predicate FewerRefresh(before: map<Id, Refresh>, after: map<Id, Refresh>) {
    forall d :: d in after ==> d in before && after[d] == before[d]
  }

  // Whatever is removed, a parent that stays keeps the pair it was exchanged for.
  ghost predicate ParentsKeepPairs(refresh: map<Id, Refresh>, access: map<Id, Access>) {
    forall d :: d in refresh && refresh[d].consumed.Some? ==>
      refresh[d].consumed.value.refresh in refresh && refresh[d].consumed.value.access in access
  }

  lemma FewerTokens(before: Auth, after: Auth)
    requires Families(before.refresh, before.access)
    requires FewerRefresh(before.refresh, after.refresh) && FewerAccess(before.access, after.access)
    requires ParentsKeepPairs(after.refresh, after.access)
    ensures Families(after.refresh, after.access)
  {
    forall d | d in after.refresh && after.refresh[d].consumed.Some? ensures IsParent(after.refresh, after.access, d) {
      assert IsParent(before.refresh, before.access, d);
    }
  }

  // An operation that only removes, revokes and touches.
  ghost predicate Shrinks(before: Auth, after: Auth) {
    && after.accounts == before.accounts && after.actions == before.actions && after.nextRow == before.nextRow
    && Fewer(before.sessions, after.sessions)
    && FewerRefresh(before.refresh, after.refresh) && FewerAccess(before.access, after.access)
  }

  lemma ShrinkingIsSound(before: Auth, after: Auth)
    requires Sound(before) && Shrinks(before, after) && ParentsKeepPairs(after.refresh, after.access)
    requires forall d :: d in after.access ==> after.access[d].session in after.sessions
    requires forall d :: d in after.refresh ==> after.refresh[d].session in after.sessions
    ensures Sound(after)
  {
    FewerSessions(before.sessions, after.sessions);
    hide OneOpenPerInstallation, BoundedSessions, BoundedAccess, Families, ParentsKeepPairs;
    FewerTokens(before, after);
    FewerAccessBounded(before.access, after.access);
  }

  // ---------- The prunes ----------

  lemma FamiliesKeepPairs(refresh: map<Id, Refresh>, access: map<Id, Access>)
    requires Families(refresh, access)
    ensures ParentsKeepPairs(refresh, access)
  {
    forall d | d in refresh && refresh[d].consumed.Some?
      ensures refresh[d].consumed.value.refresh in refresh && refresh[d].consumed.value.access in access
    {
      assert IsParent(refresh, access, d);
    }
  }

  lemma DroppedPairs(st: Auth, ids: set<Id>)
    requires Families(st.refresh, st.access)
    ensures ParentsKeepPairs(DropTokens(st, ids).refresh, DropTokens(st, ids).access)
  {
    forall d | d in DropTokens(st, ids).refresh && st.refresh[d].consumed.Some?
      ensures st.refresh[d].consumed.value.refresh in DropTokens(st, ids).refresh
      ensures st.refresh[d].consumed.value.access in DropTokens(st, ids).access
    {
      assert IsParent(st.refresh, st.access, d);
    }
  }

  lemma DropSessionsIsSound(st: Auth, ids: set<Id>)
    requires Sound(st)
    ensures Sound(DropSessions(st, ids)) && Shrinks(st, DropSessions(st, ids))
  {
    hide Families, GoodSessions, BoundedAccess, ParentsKeepPairs;
    DroppedPairs(st, ids);
    ShrinkingIsSound(st, DropSessions(st, ids));
  }

  lemma RevokeIsSound(st: Auth, ids: set<Id>, now: int)
    requires Sound(st)
    ensures var after := st.(sessions := Revoke(st.sessions, ids, now)); Sound(after) && Shrinks(st, after)
  {
    hide Families, GoodSessions, BoundedAccess, ParentsKeepPairs;
    FamiliesKeepPairs(st.refresh, st.access);
    ShrinkingIsSound(st, st.(sessions := Revoke(st.sessions, ids, now)));
  }

  lemma RevokeAndDropIsSound(st: Auth, ids: set<Id>, now: int)
    requires Sound(st)
    ensures Sound(RevokeAndDrop(st, ids, now)) && Shrinks(st, RevokeAndDrop(st, ids, now))
  {
    hide Families, GoodSessions, BoundedAccess, ParentsKeepPairs;
    DroppedPairs(st, ids);
    ShrinkingIsSound(st, RevokeAndDrop(st, ids, now));
  }

  lemma ShrinksTransitive(a: Auth, b: Auth, c: Auth)
    requires Shrinks(a, b) && Shrinks(b, c)
    ensures Shrinks(a, c)
  {
  }

  lemma PruneStaleIsSound(st: Auth, now: int)
    requires Sound(st)
    ensures Sound(PruneStale(st, now)) && Shrinks(st, PruneStale(st, now))
  {
    hide Sound, Shrinks, DropSessions, Revoke, ExpiredSessions, StaleSessions;
    RevokeIsSound(st, ExpiredSessions(st.sessions, now), now);
    var revoked := st.(sessions := Revoke(st.sessions, ExpiredSessions(st.sessions, now), now));
    DropSessionsIsSound(revoked, StaleSessions(revoked.sessions, now));
    ShrinksTransitive(st, revoked, PruneStale(st, now));
  }

  lemma PruneExpiredPairs(st: Auth, now: int)
    requires Families(st.refresh, st.access)
    ensures ParentsKeepPairs(PruneExpired(st, now).refresh, PruneExpired(st, now).access)
  {
    var r := UnexpiredRefresh(st.refresh, now);
    var after := PruneExpired(st, now);
    forall d | d in after.refresh && after.refresh[d].consumed.Some?
      ensures after.refresh[d].consumed.value.refresh in after.refresh
      ensures after.refresh[d].consumed.value.access in after.access
    {
      var use := after.refresh[d].consumed.value;
      assert IsParent(st.refresh, st.access, d);
      assert IsRetryable(r, d, now);
      assert use.refresh in after.refresh;
      assert IsRetryable(after.refresh, d, now);
      assert IsPromised(after.refresh, use.access, now);
    }
  }

  lemma PruneExpiredIsSound(st: Auth, now: int)
    requires Sound(st)
    ensures Sound(PruneExpired(st, now)) && Shrinks(st, PruneExpired(st, now))
  {
    PruneExpiredShrinks(st, now);
    hide Families, GoodSessions, BoundedAccess, ParentsKeepPairs, PruneExpired;
    PruneExpiredPairs(st, now);
    ShrinkingIsSound(st, PruneExpired(st, now));
  }

  lemma PruneExpiredShrinks(st: Auth, now: int)
    ensures Shrinks(st, PruneExpired(st, now)) && PruneExpired(st, now).sessions == st.sessions
  {
  }

  // ---------- The family of one session ----------

  lemma AtMostOne(stamps: map<Id, Stamp>)
    requires forall x, y :: x in stamps && y in stamps ==> x == y
    ensures Newest(stamps, 1) == stamps.Keys
  {
    if stamps.Keys != {} {
      var x :| x in stamps;
      assert stamps.Keys == {x};
    }
    assert |stamps| == |stamps.Keys| <= 1;
    NewestIsFull(stamps, 1);
  }

  // The access token a consumed token was exchanged for, if it is there.
  ghost predicate KeepsAccess(before: Auth, after: Auth, d: Id)
    requires d in before.refresh && before.refresh[d].consumed.Some?
  {
    before.refresh[d].consumed.value.access in before.access ==> before.refresh[d].consumed.value.access in after.access
  }

  predicate IsKept(refresh: map<Id, Refresh>, d: Id, now: int)
    requires d in refresh
  {
    IsLive(refresh, d, now) || IsRetryable(refresh, d, now)
  }

  predicate IsSpent(refresh: map<Id, Refresh>, session: Id, d: Id) {
    d in refresh && refresh[d].session == session && refresh[d].consumed.Some?
  }

  // The tokens of the session after its family is pruned.
  ghost predicate PrunedFamily(st: Auth, session: Id, now: int, after: Auth) {
    && (forall d :: d in after.refresh <==>
          d in st.refresh && (st.refresh[d].session != session || IsKept(st.refresh, d, now)))
    && (forall d :: d in after.refresh && IsSpent(st.refresh, session, d) ==> KeepsAccess(st, after, d))
  }

  predicate SameChild(a: Refresh, b: Refresh) {
    a.consumed.Some? && b.consumed.Some? && a.consumed.value.refresh == b.consumed.value.refresh
  }

  // One unconsumed token, one parent for each, and no links to other sessions.
  ghost predicate OneChain(st: Auth, session: Id) {
    var own := RefreshOf(st.refresh, session);
    && (forall d, e :: d in own && e in own && st.refresh[d].consumed.None? && st.refresh[e].consumed.None? ==> d == e)
    && (forall d, e :: d in own && e in own && SameChild(st.refresh[d], st.refresh[e]) ==> d == e)
    && (forall d :: d in own && st.refresh[d].consumed.Some? ==> StaysInside(st, session, st.refresh[d].consumed.value))
  }

  ghost predicate StaysInside(st: Auth, session: Id, use: Consumption) {
    && (use.refresh in st.refresh ==> st.refresh[use.refresh].session == session)
    && (use.access in st.access ==> st.access[use.access].session == session)
  }

  // In such a chain, what the prune picks is the one live token and the one parent of it.
  lemma PrunedFamilyIs(st: Auth, session: Id, now: int)
    requires OneChain(st, session)
    ensures PrunedFamily(st, session, now, PruneFamily(st, session, now))
  {
    var live := LiveStamps(st.refresh, session, now);
    assert live.Keys <= RefreshOf(st.refresh, session);
    AtMostOne(live);
    var current := Current(st.refresh, session, now);
    assert current == live.Keys;
    var parents := ParentStamps(st.refresh, session, current);
    assert parents.Keys <= RefreshOf(st.refresh, session);
    AtMostOne(parents);
    var parent := Parent(st.refresh, session, current);
    assert parent == parents.Keys;
    hide Newest;
    var protected := ProtectedAccess(st.refresh, parent);
    var after := PruneFamily(st, session, now);
    forall d | d in st.refresh && st.refresh[d].session == session
      ensures d in current + parent <==> IsKept(st.refresh, d, now)
      ensures d in parent ==> KeepsAccess(st, after, d)
    {
      assert d in RefreshOf(st.refresh, session);
      if st.refresh[d].consumed.Some? {
        assert StaysInside(st, session, st.refresh[d].consumed.value);
        assert d in parent ==> st.refresh[d].consumed.value.access in protected;
      }
    }
  }

  lemma PruneFamilyShrinks(st: Auth, session: Id, now: int)
    ensures var after := PruneFamily(st, session, now);
            Shrinks(st, after) && after.sessions == st.sessions
  {
    hide Newest, KeptAccess, Current, Parent;
  }

  lemma FamilyIsChain(st: Auth, session: Id)
    requires Families(st.refresh, st.access)
    ensures OneChain(st, session)
  {
    forall d | d in RefreshOf(st.refresh, session) && st.refresh[d].consumed.Some?
      ensures StaysInside(st, session, st.refresh[d].consumed.value)
    {
      assert IsParent(st.refresh, st.access, d);
    }
  }

  lemma PruneFamilyPairs(st: Auth, session: Id, now: int)
    requires Families(st.refresh, st.access)
    ensures var after := PruneFamily(st, session, now); ParentsKeepPairs(after.refresh, after.access)
  {
    hide PruneFamily, OneChain, Fewer, FewerAccess;
    FamilyIsChain(st, session);
    PrunedFamilyIs(st, session, now);
    PruneFamilyShrinks(st, session, now);
    var after := PruneFamily(st, session, now);
    forall d | d in after.refresh && after.refresh[d].consumed.Some?
      ensures after.refresh[d].consumed.value.refresh in after.refresh
      ensures after.refresh[d].consumed.value.access in after.access
    {
      assert IsParent(st.refresh, st.access, d);
      if st.refresh[d].session == session {
        assert KeepsAccess(st, after, d) && IsKept(st.refresh, d, now);
        assert IsLive(st.refresh, st.refresh[d].consumed.value.refresh, now);
      } else {
        PruneFamilyElsewhere(st, session, now);
      }
    }
  }

  lemma PruneFamilyElsewhere(st: Auth, session: Id, now: int)
    ensures var after := PruneFamily(st, session, now);
            && (forall d :: d in st.refresh && st.refresh[d].session != session ==> d in after.refresh)
            && (forall d :: d in st.access && st.access[d].session != session ==> d in after.access)
  {
    hide Newest, KeptAccess, Current, Parent;
  }

  lemma PruneFamilyIsSound(st: Auth, session: Id, now: int)
    requires Sound(st)
    ensures Sound(PruneFamily(st, session, now)) && Shrinks(st, PruneFamily(st, session, now))
  {
    hide Families, GoodSessions, BoundedAccess, ParentsKeepPairs, PruneFamily;
    PruneFamilyShrinks(st, session, now);
    PruneFamilyPairs(st, session, now);
    ShrinkingIsSound(st, PruneFamily(st, session, now));
  }

  // ---------- Access tokens of a pruned session ----------

  lemma EligibleDistinct(access: map<Id, Access>, session: Id, protected: set<Id>, now: int)
    ensures DistinctStamps(EligibleStamps(access, session, protected, now))
  {
  }

  // At most four, and one more only if a retry needs it.
  lemma KeptAccessIsBounded(access: map<Id, Access>, session: Id, protected: set<Id>, now: int)
    requires |protected| <= 1
    ensures |KeptAccess(access, session, protected, now)| <= MAX_ACCESS_TOKENS + 1
    ensures protected * EligibleStamps(access, session, protected, now).Keys
              <= Newest(EligibleStamps(access, session, protected, now), MAX_ACCESS_TOKENS) ==>
            |KeptAccess(access, session, protected, now)| <= MAX_ACCESS_TOKENS
  {
    var eligible := EligibleStamps(access, session, protected, now);
    EligibleDistinct(access, session, protected, now);
    NewestIsBounded(eligible, MAX_ACCESS_TOKENS);
    hide Newest, EligibleStamps;
    var newest, extra := Newest(eligible, MAX_ACCESS_TOKENS), protected * eligible.Keys;
    SubsetSize(extra, protected);
    assert |newest + extra| <= |newest| + |extra|;
    if extra <= newest {
      assert newest + extra == newest;
    }
  }

  lemma ProtectedIsOne(refresh: map<Id, Refresh>, parent: set<Id>)
    requires |parent| <= 1
    ensures |ProtectedAccess(refresh, parent)| <= 1
  {
    if parent == {} {
      assert ProtectedAccess(refresh, parent) == {};
    } else {
      var p :| p in parent;
      SingleMember(parent, p);
      var protected := ProtectedAccess(refresh, parent);
      if protected != {} {
        assert protected == {refresh[p].consumed.value.access};
      }
    }
  }

  lemma SingleMember(s: set<Id>, x: Id)
    requires |s| <= 1 && x in s
    ensures s == {x}
  {
    if y :| y in s && y != x {
      SubsetSize({x, y}, s);
    }
  }

  lemma ParentIsOne(refresh: map<Id, Refresh>, session: Id, current: set<Id>)
    ensures |Parent(refresh, session, current)| <= 1
  {
    assert DistinctStamps(ParentStamps(refresh, session, current));
    NewestIsBounded(ParentStamps(refresh, session, current), 1);
  }

  lemma PrunedAccessIsBounded(st: Auth, session: Id, now: int)
    ensures |AccessOf(PruneFamily(st, session, now).access, session)| <= MAX_ACCESS_TOKENS + 1
  {
    hide Parent, Current, KeptAccess, ProtectedAccess;
    var parent := Parent(st.refresh, session, Current(st.refresh, session, now));
    ParentIsOne(st.refresh, session, Current(st.refresh, session, now));
    ProtectedIsOne(st.refresh, parent);
    var kept := KeptAccess(st.access, session, ProtectedAccess(st.refresh, parent), now);
    KeptAccessIsBounded(st.access, session, ProtectedAccess(st.refresh, parent), now);
    SubsetSize(AccessOf(PruneFamily(st, session, now).access, session), kept);
  }

  // ---------- What the global prunes keep ----------

  // A session that has ended, by expiry or revocation, for longer than seven days.
  predicate EndedLongAgo(s: Session, now: int) {
    s.expiresAt < now - 604_800_000 || (s.revokedAt.Some? && s.revokedAt.value < now - 604_800_000)
  }

  // After the prune no expired session is open and none ended long ago is left; every other
  // session stays, with its tokens.
  lemma StaleSessionsAreGone(st: Auth, now: int, s: Id)
    ensures var after := PruneStale(st, now);
            && (s in after.sessions ==>
                  !EndedLongAgo(after.sessions[s], now) && (after.sessions[s].revokedAt.None? ==> now < after.sessions[s].expiresAt))
            && (s in st.sessions && !EndedLongAgo(st.sessions[s], now) ==>
                  && s in after.sessions && after.sessions[s].expiresAt == st.sessions[s].expiresAt
                  && (after.sessions[s].revokedAt == if st.sessions[s].revokedAt.None? && st.sessions[s].expiresAt <= now
                                                     then Some(now) else st.sessions[s].revokedAt)
                  && AccessOf(after.access, s) == AccessOf(st.access, s)
                  && RefreshOf(after.refresh, s) == RefreshOf(st.refresh, s))
  {
  }

  // After the prune no unconsumed refresh token is expired, a consumed one can still be retried,
  // and an expired access token is one a retry would hand out; live tokens stay.
  lemma ExpiredTokensAreGone(st: Auth, now: int, d: Id)
    ensures var after := PruneExpired(st, now);
            && (d in after.refresh ==> IsLive(after.refresh, d, now) || IsRetryable(after.refresh, d, now))
            && (d in after.access ==> now < after.access[d].expiresAt || IsPromised(after.refresh, d, now))
            && (IsLive(st.refresh, d, now) || IsRetryable(st.refresh, d, now) ==>
                  d in after.refresh && after.refresh[d] == st.refresh[d])
            && (d in st.access && now < st.access[d].expiresAt ==> d in after.access && after.access[d] == st.access[d])
  {
    var r, after := UnexpiredRefresh(st.refresh, now), PruneExpired(st, now);
    if IsRetryable(st.refresh, d, now) {
      assert IsLive(r, st.refresh[d].consumed.value.refresh, now);
      assert IsRetryable(r, d, now);
    }
    if d in after.refresh && after.refresh[d].consumed.Some? {
      assert IsRetryable(r, d, now);
      assert IsLive(after.refresh, after.refresh[d].consumed.value.refresh, now);
    }
  }

  // Nothing is left that neither a caller nor a retry could use.
  ghost predicate OnlyUseful(st: Auth, now: int) {
    && (forall d :: d in st.refresh ==> IsLive(st.refresh, d, now) || IsRetryable(st.refresh, d, now))
    && forall a :: a in st.access ==> now < st.access[a].expiresAt || IsPromised(st.refresh, a, now)
  }

  ghost predicate KeepsUseful(before: Auth, after: Auth, now: int) {
    && (forall d :: IsLive(before.refresh, d, now) || IsRetryable(before.refresh, d, now) ==>
          d in after.refresh && after.refresh[d] == before.refresh[d])
    && forall a :: a in before.access && now < before.access[a].expiresAt ==>
         a in after.access && after.access[a] == before.access[a]
  }

  lemma PrunedIsUseful(st: Auth, now: int)
    ensures OnlyUseful(PruneExpired(st, now), now) && KeepsUseful(st, PruneExpired(st, now), now)
  {
    hide PruneExpired, IsPromised;
    forall d {
      ExpiredTokensAreGone(st, now, d);
    }
  }
}
