/** What a refresh answers, and what it does to the sessions, said in terms of the rows as they
    stood before the call. */
module RefreshOutcomes {
  import opened Basics
  import opened AuthTables
  import opened AuthMachine
  import opened AuthInvariant
  import opened AuthOperations
  import opened ActionTokens
  import opened RefreshRetry
  import opened SessionLimits

  // A token whose session has not ended longer ago than the grace period.
  predicate IsKnown(st: Auth, d: Id, now: int) {
    d in st.refresh && st.refresh[d].session in st.sessions && !EndedLongAgo(st.sessions[st.refresh[d].session], now)
  }

  predicate IsKnownHere(st: Auth, d: Id, installation: string, now: int) {
    IsKnown(st, d, now) && st.sessions[st.refresh[d].session].installation == installation
  }

  predicate IsInUse(s: Session, now: int) {
    s.revokedAt.None? && now < s.expiresAt
  }

  // A token of this installation that can be exchanged.
  predicate IsExchangeable(st: Auth, d: Id, installation: string, now: int) {
    && d in st.refresh && st.refresh[d].consumed.None? && now < st.refresh[d].expiresAt
    && st.refresh[d].session in st.sessions && st.sessions[st.refresh[d].session].installation == installation
    && IsInUse(st.sessions[st.refresh[d].session], now)
  }

  // A token of this installation that this request exchanged, for one that is still live.
  predicate IsRepeatable(st: Auth, d: Id, installation: string, request: string, now: int) {
    && d in st.refresh && st.refresh[d].consumed.Some? && st.refresh[d].consumed.value.requestId == request
    && st.refresh[d].session in st.sessions && st.sessions[st.refresh[d].session].installation == installation
    && IsInUse(st.sessions[st.refresh[d].session], now)
    && IsLive(st.refresh, st.refresh[d].consumed.value.refresh, now)
  }

  // A token of this installation that another request exchanged.
  predicate IsReplay(st: Auth, d: Id, installation: string, request: string, now: int) {
    IsKnownHere(st, d, installation, now) && st.refresh[d].consumed.Some?
    && st.refresh[d].consumed.value.requestId != request
  }

  // A new digest that a token of a session still known bears already.
  predicate IsTaken(st: Auth, tok: Tokens, now: int) {
    || (tok.access in st.access && st.access[tok.access].session in st.sessions
        && !EndedLongAgo(st.sessions[st.access[tok.access].session], now))
    || IsKnown(st, tok.refresh, now)
  }

  // ---------- The tables after the first prune ----------

  lemma SessionsAfterStale(st: Auth, now: int)
    ensures forall s :: s in PruneStale(st, now).sessions <==> s in st.sessions && !EndedLongAgo(st.sessions[s], now)
    ensures forall s :: s in PruneStale(st, now).sessions ==>
              PruneStale(st, now).sessions[s]
              == if st.sessions[s].revokedAt.None? && st.sessions[s].expiresAt <= now
                 then st.sessions[s].(revokedAt := Some(now)) else st.sessions[s]
  {
  }

  lemma TokensAfterStale(st: Auth, now: int)
    requires Linked(st)
    ensures forall d :: d in PruneStale(st, now).refresh <==> IsKnown(st, d, now)
    ensures forall d :: d in PruneStale(st, now).refresh ==> PruneStale(st, now).refresh[d] == st.refresh[d]
    ensures forall d :: d in PruneStale(st, now).access <==>
              d in st.access && !EndedLongAgo(st.sessions[st.access[d].session], now)
    ensures forall d :: d in PruneStale(st, now).access ==> PruneStale(st, now).access[d] == st.access[d]
    ensures PruneStale(st, now).accounts == st.accounts && PruneStale(st, now).actions == st.actions
  {
  }

  lemma KnownIsJoined(st: Auth, d: Id, now: int)
    requires Linked(st)
    ensures IsJoined(PruneStale(st, now), d) <==> IsKnown(st, d, now)
    ensures IsKnown(st, d, now) ==> PruneStale(st, now).refresh[d] == st.refresh[d]
  {
    SessionsAfterStale(st, now);
    TokensAfterStale(st, now);
    hide PruneStale;
  }

  // ---------- The answers ----------

  lemma RenewFails(st: Auth, d: Id, request: string, tok: Tokens, now: int)
    requires IsJoined(st, d)
    ensures Renew(st, d, request, tok, now).1.DigestTaken? <==> tok.access in st.access || tok.refresh in st.refresh
    ensures Renew(st, d, request, tok, now).1.Rotated? ==>
              var expiresAt := st.sessions[st.refresh[d].session].expiresAt;
              Renew(st, d, request, tok, now).1.pair
              == Pair(st.refresh[d].session, expiresAt, tok.accessNonce, tok.refreshNonce,
                      if tok.accessExpiresAt <= expiresAt then tok.accessExpiresAt else expiresAt,
                      if tok.refreshExpiresAt <= expiresAt then tok.refreshExpiresAt else expiresAt)
  {
    hide PruneFamily, PruneExpired;
  }

  lemma TakenAfterStale(st: Auth, tok: Tokens, now: int)
    requires Linked(st)
    ensures IsTaken(st, tok, now) <==> tok.access in PruneStale(st, now).access || tok.refresh in PruneStale(st, now).refresh
  {
    TokensAfterStale(st, now);
    hide PruneStale;
  }

  lemma RetryAnswer(st: Auth, d: Id, request: string, now: int)
    requires Sound(st) && IsJoined(st, d) && st.refresh[d].consumed.Some?
    ensures var s, use := st.sessions[st.refresh[d].session], st.refresh[d].consumed.value;
            var live := use.refresh in st.refresh && now < st.refresh[use.refresh].expiresAt;
            Retry(st, d, request, now).1
            == if use.requestId != request then Replayed
               else if IsInUse(s, now) && live && use.access in st.access then
                 Repeated(Pair(st.refresh[d].session, s.expiresAt, st.access[use.access].nonce, st.refresh[use.refresh].nonce,
                               st.access[use.access].expiresAt, st.refresh[use.refresh].expiresAt))
               else RefreshExpired
    ensures st.refresh[d].consumed.value.access in st.access
    ensures IsLive(st.refresh, st.refresh[d].consumed.value.refresh, now) <==>
              st.refresh[d].consumed.value.refresh in st.refresh
              && now < st.refresh[st.refresh[d].consumed.value.refresh].expiresAt
  {
    JoinedIsActive(st, d);
    hide GoodSessions, BoundedAccess, Linked;
    assert IsParent(st.refresh, st.access, d);
  }

  // The replacement of a known token belongs to the same session, and is known with it.
  lemma ReplacementIsKnown(st: Auth, d: Id, now: int)
    requires Sound(st) && IsKnown(st, d, now) && st.refresh[d].consumed.Some?
    ensures IsKnown(st, st.refresh[d].consumed.value.refresh, now)
    ensures IsLive(PruneStale(st, now).refresh, st.refresh[d].consumed.value.refresh, now)
            <==> IsLive(st.refresh, st.refresh[d].consumed.value.refresh, now)
    ensures st.refresh[d].consumed.value.access in st.access
    ensures st.refresh[d].consumed.value.access in PruneStale(st, now).access
            && PruneStale(st, now).access[st.refresh[d].consumed.value.access] == st.access[st.refresh[d].consumed.value.access]
  {
    TokensAfterStale(st, now);
    hide GoodSessions, BoundedAccess, PruneStale;
    assert IsParent(st.refresh, st.access, d);
  }

  // Every answer, with its exact condition: an unknown token first, then another installation,
  // then a token that was exchanged before, and last one that is still to be exchanged.
  predicate IsRefreshAnswer(st: Auth, d: Id, installation: string, request: string, tok: Tokens, now: int, o: RefreshOutcome) {
    && (o.UnknownToken? <==> !IsKnown(st, d, now))
    && (o.WrongInstallation? <==> IsKnown(st, d, now) && !IsKnownHere(st, d, installation, now))
    && (o.Replayed? <==> IsReplay(st, d, installation, request, now))
    && (o.Repeated? <==> IsRepeatable(st, d, installation, request, now))
    && (o.Rotated? <==> IsExchangeable(st, d, installation, now) && !IsTaken(st, tok, now))
    && (o.DigestTaken? <==> IsExchangeable(st, d, installation, now) && IsTaken(st, tok, now))
    && (o.RefreshExpired? <==>
          && IsKnownHere(st, d, installation, now) && !IsReplay(st, d, installation, request, now)
          && !IsRepeatable(st, d, installation, request, now) && !IsExchangeable(st, d, installation, now))
  }

  lemma RefreshAnswers(st: Auth, d: Id, installation: string, request: string, tok: Tokens, now: int)
    requires Sound(st)
    ensures IsRefreshAnswer(st, d, installation, request, tok, now, Rotate(st, d, installation, request, tok, now).1)
  {
    hide Sound, Rotate, IsRefreshAnswer;
    if !IsKnown(st, d, now) {
      UnknownAnswer(st, d, installation, request, tok, now);
    } else if st.refresh[d].consumed.Some? {
      ExchangedAnswer(st, d, installation, request, tok, now);
    } else {
      UnexchangedAnswer(st, d, installation, request, tok, now);
    }
  }

  lemma UnknownAnswer(st: Auth, d: Id, installation: string, request: string, tok: Tokens, now: int)
    requires Sound(st) && !IsKnown(st, d, now)
    ensures IsRefreshAnswer(st, d, installation, request, tok, now, Rotate(st, d, installation, request, tok, now).1)
  {
    hide Sound, PruneStale, PruneExpired, PruneFamily, Retry, Renew, IsTaken;
    SoundIsLinked(st);
    KnownIsJoined(st, d, now);
  }

  lemma ExchangedAnswer(st: Auth, d: Id, installation: string, request: string, tok: Tokens, now: int)
    requires Sound(st) && IsKnown(st, d, now) && st.refresh[d].consumed.Some?
    ensures IsRefreshAnswer(st, d, installation, request, tok, now, Rotate(st, d, installation, request, tok, now).1)
  {
    hide Sound, PruneStale, PruneExpired, PruneFamily, Retry, Renew, Shrinks, IsTaken, IsLive, EndedLongAgo;
    var pruned := PruneStale(st, now);
    SoundIsLinked(st);
    PruneStaleIsSound(st, now);
    KnownIsJoined(st, d, now);
    SessionsAfterStale(st, now);
    RetryAnswer(pruned, d, request, now);
    ReplacementIsKnown(st, d, now);
  }

  lemma UnexchangedAnswer(st: Auth, d: Id, installation: string, request: string, tok: Tokens, now: int)
    requires Sound(st) && IsKnown(st, d, now) && st.refresh[d].consumed.None?
    ensures IsRefreshAnswer(st, d, installation, request, tok, now, Rotate(st, d, installation, request, tok, now).1)
  {
    hide Sound, PruneStale, PruneExpired, PruneFamily, Retry, Renew, Shrinks, IsTaken, EndedLongAgo;
    var pruned := PruneStale(st, now);
    SoundIsLinked(st);
    PruneStaleIsSound(st, now);
    KnownIsJoined(st, d, now);
    SessionsAfterStale(st, now);
    JoinedIsActive(pruned, d);
    RenewFails(pruned, d, request, tok, now);
    RenewOutcome(pruned, d, request, tok, now);
    TakenAfterStale(st, tok, now);
  }

  // ---------- What is handed out ----------

  // A rotation hands out the new pair, no longer than the session lasts; a repetition the stored
  // pair that the token was exchanged for.
  lemma RefreshPairs(st: Auth, d: Id, installation: string, request: string, tok: Tokens, now: int)
    requires Sound(st)
    ensures var o := Rotate(st, d, installation, request, tok, now).1;
            && (o.Rotated? || o.Repeated? ==>
                  && IsKnownHere(st, d, installation, now) && o.pair.session == st.refresh[d].session
                  && o.pair.sessionExpiresAt == st.sessions[o.pair.session].expiresAt)
            && (o.Rotated? ==>
                  && o.pair.accessNonce == tok.accessNonce && o.pair.refreshNonce == tok.refreshNonce
                  && o.pair.accessExpiresAt == Min(tok.accessExpiresAt, o.pair.sessionExpiresAt)
                  && o.pair.refreshExpiresAt == Min(tok.refreshExpiresAt, o.pair.sessionExpiresAt))
            && (o.Repeated? ==>
                  && st.refresh[d].consumed.Some? && st.refresh[d].consumed.value.access in st.access
                  && st.refresh[d].consumed.value.refresh in st.refresh
                  && var a, r := st.access[st.refresh[d].consumed.value.access], st.refresh[st.refresh[d].consumed.value.refresh];
                     && o.pair.accessNonce == a.nonce && o.pair.accessExpiresAt == a.expiresAt
                     && o.pair.refreshNonce == r.nonce && o.pair.refreshExpiresAt == r.expiresAt)
  {
    hide Sound, PruneStale, PruneExpired, PruneFamily, Retry, Renew, Shrinks;
    var pruned := PruneStale(st, now);
    SoundIsLinked(st);
    PruneStaleIsSound(st, now);
    KnownIsJoined(st, d, now);
    SessionsAfterStale(st, now);
    if IsKnown(st, d, now) {
      if st.refresh[d].consumed.Some? {
        RetryAnswer(pruned, d, request, now);
        ReplacementIsKnown(st, d, now);
        TokensAfterStale(st, now);
      } else {
        RenewFails(pruned, d, request, tok, now);
        RenewOutcome(pruned, d, request, tok, now);
      }
    }
  }

  // ---------- The sessions after a refresh ----------

  lemma RenewSession(st: Auth, d: Id, request: string, tok: Tokens, now: int)
    requires IsJoined(st, d) && Renew(st, d, request, tok, now).1.Rotated?
    ensures var after := Renew(st, d, request, tok, now).0; var id := st.refresh[d].session;
            after.sessions == st.sessions[id := st.sessions[id].(lastSeenAt := now)]
  {
    hide PruneFamily, PruneExpired;
    var id := st.refresh[d].session;
    var capped := Capped(tok, st.sessions[id].expiresAt);
    var added := InsertTokens(Consume(st, d, Consumption(now, request, tok.refresh, tok.access)), id, capped, now).value;
    PruneFamilyShrinks(added, id, now);
    PruneExpiredShrinks(PruneFamily(added, id, now), now);
  }

  lemma RetrySession(st: Auth, d: Id, request: string, now: int)
    requires Sound(st) && IsJoined(st, d) && st.refresh[d].consumed.Some?
    ensures var r := Retry(st, d, request, now);
            r.0.sessions == if r.1.Replayed? then Revoke(st.sessions, {st.refresh[d].session}, now) else st.sessions
  {
    RetryIsSound(st, d, request, now);
    hide Sound;
  }

  // Sessions that ended long ago are forgotten, expired ones are closed, a rotation marks its
  // session as seen and a replay closes it; nothing else happens to any session.
  lemma RefreshedSessions(st: Auth, d: Id, installation: string, request: string, tok: Tokens, now: int, s: Id)
    requires Sound(st)
    ensures var r := Rotate(st, d, installation, request, tok, now);
            && r.0.accounts == st.accounts && r.0.actions == st.actions
            && (r.1.DigestTaken? ==> r.0 == st)
            && (!r.1.DigestTaken? ==>
                  && (s in r.0.sessions <==> s in st.sessions && !EndedLongAgo(st.sessions[s], now))
                  && (s in r.0.sessions ==>
                        var before, own := st.sessions[s], d in st.refresh && st.refresh[d].session == s;
                        var closes := before.expiresAt <= now || (own && r.1.Replayed?);
                        r.0.sessions[s]
                        == before.(lastSeenAt := if own && r.1.Rotated? then now else before.lastSeenAt,
                                   revokedAt := if before.revokedAt.None? && closes then Some(now) else before.revokedAt)))
  {
    hide Sound, PruneStale, PruneExpired, PruneFamily, Retry, Renew, Shrinks, Fewer, FewerAccess, FewerRefresh;
    var pruned := PruneStale(st, now);
    SoundIsLinked(st);
    PruneStaleIsSound(st, now);
    KnownIsJoined(st, d, now);
    SessionsAfterStale(st, now);
    RotateAccounts(st, d, installation, request, tok, now);
    RotateActions(st, d, installation, request, tok, now);
    if IsKnown(st, d, now) {
      RefreshAnswers(st, d, installation, request, tok, now);
      var id := st.refresh[d].session;
      if st.refresh[d].consumed.Some? {
        RetryIsSound(pruned, d, request, now);
        RetrySession(pruned, d, request, now);
      } else {
        RenewOutcome(pruned, d, request, tok, now);
        SessionsAfterPrunes(pruned, id, now);
        if Renew(pruned, d, request, tok, now).1.Rotated? {
          RenewSession(pruned, d, request, tok, now);
        }
      }
    } else {
      SessionsAfterPrunes(pruned, 0, now);
    }
  }

  lemma SessionsAfterPrunes(st: Auth, id: Id, now: int)
    ensures PruneExpired(st, now).sessions == st.sessions
    ensures PruneExpired(PruneFamily(st, id, now), now).sessions == st.sessions
  {
    hide Newest, KeptAccess, Current, Parent, UsefulRefresh;
  }

  // Whoever presents a token of another installation gets no credentials and closes no session.
  lemma OtherInstallationGetsNothing(st: Auth, d: Id, installation: string, request: string, tok: Tokens, now: int, s: Id)
    requires Sound(st) && d in st.refresh && st.refresh[d].session in st.sessions
    requires st.sessions[st.refresh[d].session].installation != installation
    ensures var r := Rotate(st, d, installation, request, tok, now);
            && !r.1.Rotated? && !r.1.Repeated?
            && (s in st.sessions && IsInUse(st.sessions[s], now) ==> s in r.0.sessions && r.0.sessions[s] == st.sessions[s])
  {
    hide Sound, Rotate;
    RefreshAnswers(st, d, installation, request, tok, now);
    RefreshedSessions(st, d, installation, request, tok, now, s);
  }

  // ---------- The tokens after a refresh ----------

  // Usable access tokens of the same session that are newer than this one.
  function NewerAccess(access: map<Id, Access>, x: Id, now: int): set<Id>
    requires x in access
  {
    set y | y in access && access[y].session == access[x].session && now < access[y].expiresAt
            && (access[y].createdAt > access[x].createdAt
                || (access[y].createdAt == access[x].createdAt
                    && (access[y].row > access[x].row || (access[y].row == access[x].row && y > x))))
  }

  // An unexpired access token, and if it is one of this session no three newer ones are usable.
  predicate IsRecent(access: map<Id, Access>, x: Id, session: Id, now: int) {
    x in access && now < access[x].expiresAt && (access[x].session != session || |NewerAccess(access, x, now)| < 3)
  }

  // The family prune keeps every usable access token that at most three newer usable ones and
  // the token of a retry could displace.
  lemma FamilyKeepsRecent(st: Auth, session: Id, now: int, x: Id, newcomer: set<Id>)
    requires x in st.access && now < st.access[x].expiresAt && |newcomer| <= 1
    requires |NewerAccess(st.access, x, now) - newcomer| < 3
    requires ProtectedAccess(st.refresh, Parent(st.refresh, session, Current(st.refresh, session, now))) <= newcomer
    ensures x in PruneFamily(st, session, now).access
  {
    hide Parent, Current, ProtectedAccess;
    var protected := ProtectedAccess(st.refresh, Parent(st.refresh, session, Current(st.refresh, session, now)));
    if st.access[x].session == session {
      var eligible := EligibleStamps(st.access, session, protected, now);
      assert x in eligible;
      assert Ahead(eligible, x) <= (NewerAccess(st.access, x, now) - newcomer) + newcomer;
      SubsetSize(Ahead(eligible, x), (NewerAccess(st.access, x, now) - newcomer) + newcomer);
    }
  }

  // The new rows of a rotation.
  function NewRefresh(st: Auth, d: Id, tok: Tokens, now: int): Refresh
    requires IsJoined(st, d)
  {
    var id := st.refresh[d].session;
    Refresh(tok.refreshNonce, id, now, Min(tok.refreshExpiresAt, st.sessions[id].expiresAt), st.nextRow, None)
  }

  function NewAccess(st: Auth, d: Id, tok: Tokens, now: int): Access
    requires IsJoined(st, d)
  {
    var id := st.refresh[d].session;
    Access(tok.accessNonce, id, now, Min(tok.accessExpiresAt, st.sessions[id].expiresAt), st.nextRow)
  }

  // The tables of a rotation before its prunes.
  ghost predicate IsExchange(st: Auth, d: Id, request: string, tok: Tokens, now: int, mid: Auth) {
    && IsJoined(st, d) && tok.access !in st.access && tok.refresh !in st.refresh
    && mid == st.(refresh := st.refresh[d := st.refresh[d].(consumed := Some(Consumption(now, request, tok.refresh, tok.access)))]
                                       [tok.refresh := NewRefresh(st, d, tok, now)],
                  access := st.access[tok.access := NewAccess(st, d, tok, now)],
                  nextRow := st.nextRow + 1)
  }

  lemma RenewSteps(st: Auth, d: Id, request: string, tok: Tokens, now: int) returns (mid: Auth)
    requires IsJoined(st, d) && Renew(st, d, request, tok, now).1.Rotated?
    ensures IsExchange(st, d, request, tok, now, mid)
    ensures Exchanged(st, d, request, Capped(tok, st.sessions[st.refresh[d].session].expiresAt), now, mid)
    ensures Renew(st, d, request, tok, now).0
            == Seen(PruneExpired(PruneFamily(mid, st.refresh[d].session, now), now), st.refresh[d].session, now)
  {
    hide PruneFamily, PruneExpired, Seen;
    var id := st.refresh[d].session;
    mid := InsertTokens(Consume(st, d, Consumption(now, request, tok.refresh, tok.access)), id,
                        Capped(tok, st.sessions[id].expiresAt), now).value;
  }

  // What a rotation makes of a refresh token: the presented one is marked, the new one is added,
  // every other one is as it was or gone, and the session keeps no third.
  lemma RenewRefreshRows(st: Auth, d: Id, request: string, tok: Tokens, now: int, x: Id)
    requires Sound(st) && IsJoined(st, d) && st.refresh[d].consumed.None? && Renew(st, d, request, tok, now).1.Rotated?
    ensures var after := Renew(st, d, request, tok, now).0;
            && (x in after.refresh ==>
                  if x == tok.refresh then after.refresh[x] == NewRefresh(st, d, tok, now)
                  else if x == d then
                    after.refresh[x] == st.refresh[x].(consumed := Some(Consumption(now, request, tok.refresh, tok.access)))
                  else x in st.refresh && after.refresh[x] == st.refresh[x] && st.refresh[x].session != st.refresh[d].session)
  {
    hide Sound, Renew, PruneFamily, PruneExpired, Families, OneChain, IsLive, IsRetryable;
    var id, capped := st.refresh[d].session, Capped(tok, st.sessions[st.refresh[d].session].expiresAt);
    var mid := RenewSteps(st, d, request, tok, now);
    SoundFamilies(st);
    ExchangeMakesChain(st, d, request, capped, now, mid);
    PrunedFamilyIs(mid, id, now);
    var family := PruneFamily(mid, id, now);
    PruneFamilyShrinks(mid, id, now);
    PruneExpiredShrinks(family, now);
    if x in family.refresh && family.refresh[x].session == id {
      KeptOfExchange(st, d, request, capped, now, mid, x);
    }
  }

  lemma OtherRowStays(st: Auth, d: Id, request: string, tok: Tokens, now: int, mid: Auth, x: Id)
    requires IsExchange(st, d, request, tok, now, mid)
    requires x in st.refresh && st.refresh[x].session != st.refresh[d].session
    ensures var family := PruneFamily(mid, st.refresh[d].session, now);
            x in family.refresh && family.refresh[x] == st.refresh[x]
  {
    hide PruneFamily;
    PruneFamilyElsewhere(mid, st.refresh[d].session, now);
    PruneFamilyShrinks(mid, st.refresh[d].session, now);
  }

  lemma OthersStayInFamily(st: Auth, d: Id, request: string, tok: Tokens, now: int, mid: Auth, x: Id)
    requires Families(st.refresh, st.access) && IsExchange(st, d, request, tok, now, mid) && d in st.refresh
    requires IsLive(st.refresh, x, now) || IsRetryable(st.refresh, x, now)
    requires st.refresh[x].session != st.refresh[d].session
    ensures var family := PruneFamily(mid, st.refresh[d].session, now);
            IsLive(family.refresh, x, now) || IsRetryable(family.refresh, x, now)
    ensures PruneFamily(mid, st.refresh[d].session, now).refresh[x] == st.refresh[x]
  {
    hide PruneFamily, IsExchange;
    OtherRowStays(st, d, request, tok, now, mid, x);
    if st.refresh[x].consumed.Some? {
      assert IsParent(st.refresh, st.access, x);
      OtherRowStays(st, d, request, tok, now, mid, st.refresh[x].consumed.value.refresh);
    }
  }

  // A rotation keeps the tokens of every other session that are still of use.
  lemma RenewKeepsOthers(st: Auth, d: Id, request: string, tok: Tokens, now: int, x: Id)
    requires Sound(st) && IsJoined(st, d) && Renew(st, d, request, tok, now).1.Rotated?
    requires IsLive(st.refresh, x, now) || IsRetryable(st.refresh, x, now)
    requires st.refresh[x].session != st.refresh[d].session
    ensures var after := Renew(st, d, request, tok, now).0; x in after.refresh && after.refresh[x] == st.refresh[x]
  {
    hide Sound, Renew, PruneFamily, PruneExpired, Families;
    var mid := RenewSteps(st, d, request, tok, now);
    SoundFamilies(st);
    OthersStayInFamily(st, d, request, tok, now, mid, x);
    ExpiredTokensAreGone(PruneFamily(mid, st.refresh[d].session, now), now, x);
  }

  lemma PromisedStays(st: Auth, d: Id, now: int)
    requires IsRetryable(st.refresh, d, now) && st.refresh[d].consumed.value.access in st.access
    ensures st.refresh[d].consumed.value.access in PruneExpired(st, now).access
  {
    var after := UsefulRefresh(st.refresh, now);
    assert IsLive(UnexpiredRefresh(st.refresh, now), st.refresh[d].consumed.value.refresh, now);
    assert IsRetryable(UnexpiredRefresh(st.refresh, now), d, now) && IsRetryable(after, d, now);
    assert IsPromised(after, st.refresh[d].consumed.value.access, now);
  }

  // A new token that is not born expired stays, and with it the one it was exchanged for.
  lemma RenewKeepsPair(st: Auth, d: Id, request: string, tok: Tokens, now: int)
    requires Sound(st) && IsJoined(st, d) && st.refresh[d].consumed.None? && Renew(st, d, request, tok, now).1.Rotated?
    requires now < NewRefresh(st, d, tok, now).expiresAt
    ensures var after := Renew(st, d, request, tok, now).0;
            d in after.refresh && tok.refresh in after.refresh && tok.access in after.access
  {
    hide Sound, Renew, PruneFamily, PruneExpired, Families, OneChain;
    var id, capped := st.refresh[d].session, Capped(tok, st.sessions[st.refresh[d].session].expiresAt);
    var mid := RenewSteps(st, d, request, tok, now);
    SoundFamilies(st);
    ExchangeMakesChain(st, d, request, capped, now, mid);
    PrunedFamilyIs(mid, id, now);
    var family := PruneFamily(mid, id, now);
    PruneFamilyShrinks(mid, id, now);
    assert IsKept(mid.refresh, d, now) && IsKept(mid.refresh, tok.refresh, now);
    assert IsLive(family.refresh, tok.refresh, now) && IsRetryable(family.refresh, d, now);
    ExpiredTokensAreGone(family, now, d);
    ExpiredTokensAreGone(family, now, tok.refresh);
    ExchangeLinks(st, d, request, capped, now, mid);
    assert IsSpent(mid.refresh, id, d) && KeepsAccess(mid, family, d);
    PromisedStays(family, d, now);
  }

  // What a rotation makes of the access tokens: the new one is added, and an unexpired one stays
  // unless three newer ones of its session are usable.
  lemma RenewAccessRows(st: Auth, d: Id, request: string, tok: Tokens, now: int, x: Id)
    requires Sound(st) && IsJoined(st, d) && st.refresh[d].consumed.None? && Renew(st, d, request, tok, now).1.Rotated?
    ensures var after := Renew(st, d, request, tok, now).0;
            && (x in after.access ==>
                  if x == tok.access then after.access[x] == NewAccess(st, d, tok, now)
                  else x in st.access && after.access[x] == st.access[x])
            && (IsRecent(st.access, x, st.refresh[d].session, now) ==> x in after.access)
  {
    hide Sound, Renew, PruneFamily, PruneExpired, Families;
    var id, capped := st.refresh[d].session, Capped(tok, st.sessions[st.refresh[d].session].expiresAt);
    var mid := RenewSteps(st, d, request, tok, now);
    SoundFamilies(st);
    var family := PruneFamily(mid, id, now);
    PruneFamilyShrinks(mid, id, now);
    PruneExpiredShrinks(family, now);
    if IsRecent(st.access, x, id, now) {
      if st.access[x].session != id {
        PruneFamilyElsewhere(mid, id, now);
      } else {
        ProtectedIsNew(st, d, request, capped, now, mid);
        SubsetSize(NewerAccess(mid.access, x, now) - {tok.access}, NewerAccess(st.access, x, now));
        FamilyKeepsRecent(mid, id, now, x, {tok.access});
      }
      ExpiredTokensAreGone(family, now, x);
    }
  }

  lemma FamilyProtectsOne(st: Auth, session: Id, now: int)
    ensures |ProtectedAccess(st.refresh, Parent(st.refresh, session, Current(st.refresh, session, now)))| <= 1
  {
    hide Parent, Current, ProtectedAccess;
    ParentIsOne(st.refresh, session, Current(st.refresh, session, now));
    ProtectedIsOne(st.refresh, Parent(st.refresh, session, Current(st.refresh, session, now)));
  }

  // The prunes of a refused refresh remove no token that is still of use.
  lemma PrunesKeepUseful(st: Auth, session: Id, now: int, x: Id)
    requires Families(st.refresh, st.access)
    ensures var after := PruneExpired(PruneFamily(st, session, now), now);
            && (IsLive(st.refresh, x, now) || IsRetryable(st.refresh, x, now) ==> x in after.refresh)
            && (IsRecent(st.access, x, session, now) ==> x in after.access)
  {
    hide Families, PruneFamily, PruneExpired, OneChain;
    var family := PruneFamily(st, session, now);
    FamilyIsChain(st, session);
    PrunedFamilyIs(st, session, now);
    if IsLive(st.refresh, x, now) || IsRetryable(st.refresh, x, now) {
      KeptInFamily(st, session, now, x);
      ExpiredTokensAreGone(family, now, x);
    }
    if IsRecent(st.access, x, session, now) {
      PruneFamilyElsewhere(st, session, now);
      if st.access[x].session == session {
        KeepsRecentOwn(st, session, now, x);
      }
      PruneFamilyShrinks(st, session, now);
      ExpiredTokensAreGone(family, now, x);
    }
  }

  lemma KeepsRecentOwn(st: Auth, session: Id, now: int, x: Id)
    requires x in st.access && now < st.access[x].expiresAt && |NewerAccess(st.access, x, now)| < 3
    ensures x in PruneFamily(st, session, now).access
  {
    hide PruneFamily;
    var protected := ProtectedAccess(st.refresh, Parent(st.refresh, session, Current(st.refresh, session, now)));
    FamilyProtectsOne(st, session, now);
    SubsetSize(NewerAccess(st.access, x, now) - protected, NewerAccess(st.access, x, now));
    FamilyKeepsRecent(st, session, now, x, protected);
  }

  lemma KeptInFamily(st: Auth, session: Id, now: int, x: Id)
    requires Families(st.refresh, st.access) && PrunedFamily(st, session, now, PruneFamily(st, session, now))
    requires IsLive(st.refresh, x, now) || IsRetryable(st.refresh, x, now)
    ensures var family := PruneFamily(st, session, now);
            IsLive(family.refresh, x, now) || IsRetryable(family.refresh, x, now)
  {
    PruneFamilyShrinks(st, session, now);
    hide PruneFamily;
    if st.refresh[x].consumed.Some? {
      assert IsParent(st.refresh, st.access, x);
      assert IsKept(st.refresh, st.refresh[x].consumed.value.refresh, now);
    }
  }

  // A refresh that rotates nothing leaves the tokens of the first prune, or prunes them further.
  ghost predicate OnlyPrunes(pruned: Auth, after: Auth, session: Id, now: int) {
    || SameTokens(pruned, after) || SameTokens(PruneExpired(pruned, now), after)
    || SameTokens(PruneExpired(PruneFamily(pruned, session, now), now), after)
  }

  predicate SameTokens(a: Auth, b: Auth) {
    a.refresh == b.refresh && a.access == b.access
  }

  // The session of a presented token.
  function Presented(st: Auth, d: Id): Id {
    if d in st.refresh then st.refresh[d].session else 0
  }

  lemma RefreshSteps(st: Auth, d: Id, installation: string, request: string, tok: Tokens, now: int)
    requires Sound(st)
    ensures var r, pruned := Rotate(st, d, installation, request, tok, now), PruneStale(st, now);
            if r.1.DigestTaken? then r.0 == st
            else if r.1.Rotated? then
              && IsJoined(pruned, d) && pruned.refresh[d].consumed.None? && r == Renew(pruned, d, request, tok, now)
            else OnlyPrunes(pruned, r.0, Presented(st, d), now)
  {
    hide Sound, PruneStale, PruneExpired, PruneFamily, Renew;
    var pruned := PruneStale(st, now);
    SoundIsLinked(st);
    KnownIsJoined(st, d, now);
    if IsKnown(st, d, now) && st.refresh[d].consumed.None? {
      RenewOutcome(pruned, d, request, tok, now);
    }
    RotateIsSound(st, d, installation, request, tok, now);
  }

  // Tables of which tokens are only removed, and none that is of use.
  lemma OnlyPrunesKeeps(pruned: Auth, after: Auth, session: Id, now: int, x: Id)
    requires Families(pruned.refresh, pruned.access) && OnlyPrunes(pruned, after, session, now)
    ensures x in after.refresh ==> x in pruned.refresh && after.refresh[x] == pruned.refresh[x]
    ensures x in after.access ==> x in pruned.access && after.access[x] == pruned.access[x]
    ensures IsLive(pruned.refresh, x, now) || IsRetryable(pruned.refresh, x, now) ==> x in after.refresh
    ensures IsRecent(pruned.access, x, session, now) ==> x in after.access
  {
    hide Families, PruneExpired, PruneFamily, IsLive, IsRetryable;
    ExpiredTokensAreGone(pruned, now, x);
    PruneExpiredShrinks(pruned, now);
    PrunesKeepUseful(pruned, session, now, x);
    PruneFamilyShrinks(pruned, session, now);
    PruneExpiredShrinks(PruneFamily(pruned, session, now), now);
  }

  // The tokens that are of use are so after the first prune as well.
  lemma UsefulAfterStale(st: Auth, now: int, x: Id)
    requires Sound(st)
    ensures IsKnown(st, x, now) && (IsLive(st.refresh, x, now) || IsRetryable(st.refresh, x, now)) ==>
              && x in PruneStale(st, now).refresh && PruneStale(st, now).refresh[x] == st.refresh[x]
              && (IsLive(PruneStale(st, now).refresh, x, now) || IsRetryable(PruneStale(st, now).refresh, x, now))
  {
    hide Sound, PruneStale;
    SoundIsLinked(st);
    TokensAfterStale(st, now);
    if IsKnown(st, x, now) && st.refresh[x].consumed.Some? {
      ReplacementIsKnown(st, x, now);
    }
  }

  lemma NewRowsAfterStale(st: Auth, d: Id, tok: Tokens, now: int)
    requires Linked(st) && IsJoined(PruneStale(st, now), d)
    ensures IsJoined(st, d)
    ensures NewRefresh(PruneStale(st, now), d, tok, now) == NewRefresh(st, d, tok, now)
    ensures NewAccess(PruneStale(st, now), d, tok, now) == NewAccess(st, d, tok, now)
  {
    KnownIsJoined(st, d, now);
    SessionsAfterStale(st, now);
    StaleKeepsRow(st, now);
    hide PruneStale;
  }

  lemma StaleKeepsRow(st: Auth, now: int)
    ensures PruneStale(st, now).nextRow == st.nextRow
  {
  }

  // The refresh tokens after a refresh: the presented one is marked and the new one added by a
  // rotation, which leaves its session no third; every other token is as it was, or gone.
  lemma RefreshedRefreshTokens(st: Auth, d: Id, installation: string, request: string, tok: Tokens, now: int, x: Id)
    requires Sound(st)
    ensures var r := Rotate(st, d, installation, request, tok, now);
            && (r.1.Rotated? ==> IsJoined(st, d))
            && (x in r.0.refresh ==>
                  if r.1.Rotated? && x == tok.refresh then r.0.refresh[x] == NewRefresh(st, d, tok, now)
                  else if r.1.Rotated? && x == d then
                    r.0.refresh[x] == st.refresh[x].(consumed := Some(Consumption(now, request, tok.refresh, tok.access)))
                  else
                    && x in st.refresh && r.0.refresh[x] == st.refresh[x]
                    && (r.1.Rotated? ==> st.refresh[x].session != st.refresh[d].session))
  {
    hide Sound, PruneStale, Renew, Rotate, OnlyPrunes, Families;
    var r, pruned := Rotate(st, d, installation, request, tok, now), PruneStale(st, now);
    SoundIsLinked(st);
    PruneStaleIsSound(st, now);
    SoundFamilies(pruned);
    TokensAfterStale(st, now);
    RefreshSteps(st, d, installation, request, tok, now);
    if r.1.Rotated? {
      NewRowsAfterStale(st, d, tok, now);
      RenewRefreshRows(pruned, d, request, tok, now, x);
    } else if !r.1.DigestTaken? {
      OnlyPrunesKeeps(pruned, r.0, Presented(st, d), now, x);
    }
  }

  // A token that is live, or was exchanged for a live one, stays, unless its own session is given
  // a new pair; that pair stays, with the token it was given for.
  lemma UsefulTokensStay(st: Auth, d: Id, installation: string, request: string, tok: Tokens, now: int, x: Id)
    requires Sound(st)
    ensures var r := Rotate(st, d, installation, request, tok, now);
            && (IsKnown(st, x, now) && (IsLive(st.refresh, x, now) || IsRetryable(st.refresh, x, now))
                && !(r.1.Rotated? && d in st.refresh && st.refresh[x].session == st.refresh[d].session) ==>
                  x in r.0.refresh && r.0.refresh[x] == st.refresh[x])
            && (r.1.Rotated? ==>
                  IsJoined(st, d) && (now < NewRefresh(st, d, tok, now).expiresAt ==>
                  d in r.0.refresh && tok.refresh in r.0.refresh && tok.access in r.0.access))
  {
    hide Sound, PruneStale, Renew, Rotate, OnlyPrunes, Families, IsLive, IsRetryable, NewRefresh;
    var r, pruned := Rotate(st, d, installation, request, tok, now), PruneStale(st, now);
    SoundIsLinked(st);
    PruneStaleIsSound(st, now);
    SoundFamilies(pruned);
    TokensAfterStale(st, now);
    UsefulAfterStale(st, now, x);
    RefreshSteps(st, d, installation, request, tok, now);
    if r.1.Rotated? {
      NewRowsAfterStale(st, d, tok, now);
      if now < NewRefresh(st, d, tok, now).expiresAt {
        RenewKeepsPair(pruned, d, request, tok, now);
      }
    }
    if IsKnown(st, x, now) && (IsLive(st.refresh, x, now) || IsRetryable(st.refresh, x, now)) {
      if r.1.Rotated? {
        if st.refresh[x].session != st.refresh[d].session {
          RenewKeepsOthers(pruned, d, request, tok, now, x);
        }
      } else if !r.1.DigestTaken? {
        OnlyPrunesKeeps(pruned, r.0, Presented(st, d), now, x);
      }
    }
  }

  // The access tokens after a refresh: a rotation adds the new one; every other one is as it was,
  // or gone, but not while it is unexpired, its session is remembered, and no three newer ones of
  // that session are usable.
  lemma RefreshedAccessTokens(st: Auth, d: Id, installation: string, request: string, tok: Tokens, now: int, x: Id)
    requires Sound(st)
    ensures var r := Rotate(st, d, installation, request, tok, now);
            && (r.1.Rotated? ==> IsJoined(st, d))
            && (x in r.0.access ==>
                  if r.1.Rotated? && x == tok.access then r.0.access[x] == NewAccess(st, d, tok, now)
                  else x in st.access && r.0.access[x] == st.access[x])
            && (IsRecent(st.access, x, Presented(st, d), now) && st.access[x].session in st.sessions
                && !EndedLongAgo(st.sessions[st.access[x].session], now) ==>
                  x in r.0.access)
  {
    hide Sound, PruneStale, Renew, Rotate, OnlyPrunes, Families, NewAccess;
    var r, pruned := Rotate(st, d, installation, request, tok, now), PruneStale(st, now);
    SoundIsLinked(st);
    PruneStaleIsSound(st, now);
    SoundFamilies(pruned);
    TokensAfterStale(st, now);
    RefreshSteps(st, d, installation, request, tok, now);
    if x in pruned.access {
      SubsetSize(NewerAccess(pruned.access, x, now), NewerAccess(st.access, x, now));
    }
    if r.1.Rotated? {
      NewRowsAfterStale(st, d, tok, now);
      RenewAccessRows(pruned, d, request, tok, now, x);
    } else if !r.1.DigestTaken? {
      OnlyPrunesKeeps(pruned, r.0, Presented(st, d), now, x);
    }
  }

  // ---------- What a refresh cleans up ----------

  // The answers after which the tokens are pruned.
  predicate CleansUp(st: Auth, d: Id, o: RefreshOutcome) {
    o.UnknownToken? || o.Rotated? || (o.RefreshExpired? && d in st.refresh && st.refresh[d].consumed.None?)
  }

  // What the prunes work on.
  lemma CleaningSteps(st: Auth, d: Id, installation: string, request: string, tok: Tokens, now: int) returns (mid: Auth)
    requires Sound(st)
    ensures var r := Rotate(st, d, installation, request, tok, now);
            && (r.1.UnknownToken? ==> r.0 == PruneExpired(PruneStale(st, now), now))
            && (CleansUp(st, d, r.1) && !r.1.UnknownToken? ==>
                  SameTokens(r.0, PruneExpired(PruneFamily(mid, Presented(st, d), now), now)))
  {
    hide Sound, PruneStale, PruneExpired, PruneFamily, Renew, Retry;
    var pruned := PruneStale(st, now);
    SoundIsLinked(st);
    KnownIsJoined(st, d, now);
    mid := pruned;
    if IsKnown(st, d, now) && st.refresh[d].consumed.None? {
      RenewOutcome(pruned, d, request, tok, now);
      if Rotate(st, d, installation, request, tok, now).1.Rotated? {
        mid := RenewSteps(pruned, d, request, tok, now);
      }
      RenewedOnly(pruned, d, request, tok, now);
    } else if IsKnown(st, d, now) {
      NotRotated(pruned, d, request, now);
    }
  }

  lemma RenewedOnly(st: Auth, d: Id, request: string, tok: Tokens, now: int)
    requires IsJoined(st, d)
    ensures !Renew(st, d, request, tok, now).1.RefreshExpired? && !Renew(st, d, request, tok, now).1.UnknownToken?
  {
  }

  lemma NotRotated(st: Auth, d: Id, request: string, now: int)
    requires IsJoined(st, d) && st.refresh[d].consumed.Some?
    ensures !Retry(st, d, request, now).1.Rotated? && !Retry(st, d, request, now).1.UnknownToken?
  {
  }

  lemma ProtectedIsPromised(st: Auth, session: Id, now: int, x: Id)
    requires x in ProtectedAccess(st.refresh, Parent(st.refresh, session, Current(st.refresh, session, now)))
    ensures IsPromised(PruneExpired(PruneFamily(st, session, now), now).refresh, x, now)
  {
    var current := Current(st.refresh, session, now);
    var family := PruneFamily(st, session, now);
    var p :| p in Parent(st.refresh, session, current) && p in st.refresh && st.refresh[p].consumed.Some?
             && st.refresh[p].consumed.value.access == x;
    ParentIsKept(st.refresh, session, now, p);
    ParentOfCurrent(st.refresh, session, current, p);
    hide Parent, Current, KeptAccess, PruneExpired;
    assert IsRetryable(family.refresh, p, now);
    ExpiredTokensAreGone(family, now, p);
    ReplacementStays(family, now, p);
  }

  lemma ParentOfCurrent(refresh: map<Id, Refresh>, session: Id, current: set<Id>, p: Id)
    requires p in Parent(refresh, session, current)
    ensures p in refresh && refresh[p].consumed.Some? && refresh[p].consumed.value.refresh in current
  {
    hide Ahead;
  }

  lemma ReplacementStays(st: Auth, now: int, p: Id)
    requires IsRetryable(st.refresh, p, now)
    ensures IsPromised(PruneExpired(st, now).refresh, st.refresh[p].consumed.value.access, now)
  {
    hide PruneExpired;
    ExpiredTokensAreGone(st, now, p);
    ExpiredTokensAreGone(st, now, st.refresh[p].consumed.value.refresh);
    assert IsRetryable(PruneExpired(st, now).refresh, p, now);
  }

  lemma OldAccessIsPromised(st: Auth, session: Id, now: int, x: Id)
    requires var after := PruneExpired(PruneFamily(st, session, now), now);
             x in after.access && after.access[x].session == session
    ensures var after := PruneExpired(PruneFamily(st, session, now), now);
            |NewerAccess(after.access, x, now)| < 4 || IsPromised(after.refresh, x, now)
  {
    hide PruneExpired, Parent, Current, ProtectedAccess;
    var protected := ProtectedAccess(st.refresh, Parent(st.refresh, session, Current(st.refresh, session, now)));
    var after := PruneExpired(PruneFamily(st, session, now), now);
    PruneExpiredShrinks(PruneFamily(st, session, now), now);
    if x in protected {
      ProtectedIsPromised(st, session, now, x);
    } else {
      var eligible := EligibleStamps(st.access, session, protected, now);
      SubsetSize(NewerAccess(after.access, x, now), Ahead(eligible, x));
    }
  }

  lemma UsefulTokens(a: Auth, b: Auth, now: int)
    requires SameTokens(a, b) && OnlyUseful(a, now)
    ensures OnlyUseful(b, now)
  {
  }

  // An unknown, exchanged or expired token leaves no token that neither its holder nor a retry
  // could use, and to the presented session only its four newest and what a retry would hand out.
  lemma RefreshCleansUp(st: Auth, d: Id, installation: string, request: string, tok: Tokens, now: int, x: Id)
    requires Sound(st)
    ensures var r := Rotate(st, d, installation, request, tok, now);
            CleansUp(st, d, r.1) ==>
              && OnlyUseful(r.0, now)
              && (!r.1.UnknownToken? && x in r.0.access && r.0.access[x].session == Presented(st, d) ==>
                    |NewerAccess(r.0.access, x, now)| < 4 || IsPromised(r.0.refresh, x, now))
  {
    hide Sound, Rotate, PruneStale, PruneExpired, PruneFamily, CleansUp, OnlyUseful, IsPromised;
    var r := Rotate(st, d, installation, request, tok, now);
    var mid := CleaningSteps(st, d, installation, request, tok, now);
    if r.1.UnknownToken? {
      PrunedIsUseful(PruneStale(st, now), now);
    } else if CleansUp(st, d, r.1) {
      var family := PruneFamily(mid, Presented(st, d), now);
      PrunedIsUseful(family, now);
      UsefulTokens(PruneExpired(family, now), r.0, now);
      if x in r.0.access && r.0.access[x].session == Presented(st, d) {
        OldAccessIsPromised(mid, Presented(st, d), now, x);
      }
    }
  }
}
