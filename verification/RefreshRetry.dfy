/** An exact retry of a rotation gets the same pair, whatever happens in between, until the
    next rotation, revocation or expiry. */
module RefreshRetry {
  import opened Basics
  import opened AuthTables
  import opened AuthMachine
  import opened AuthInvariant
  import opened AuthOperations

  predicate IsOpen(st: Auth, session: Id) {
    session in st.sessions && st.sessions[session].revokedAt.None?
  }

  // The tables can answer the retry of a request with the pair it got.
  ghost predicate Promises(st: Auth, digest: Id, request: string, pair: Pair) {
    && digest in st.refresh && st.refresh[digest].session == pair.session
    && st.refresh[digest].consumed.Some? && st.refresh[digest].consumed.value.requestId == request
    && pair.session in st.sessions && st.sessions[pair.session].expiresAt == pair.sessionExpiresAt
    && pair.refreshExpiresAt <= pair.sessionExpiresAt
    && var use := st.refresh[digest].consumed.value;
       && use.access in st.access && st.access[use.access].nonce == pair.accessNonce
       && st.access[use.access].expiresAt == pair.accessExpiresAt && st.access[use.access].session == pair.session
       && use.refresh in st.refresh && st.refresh[use.refresh].nonce == pair.refreshNonce
       && st.refresh[use.refresh].expiresAt == pair.refreshExpiresAt
       && st.refresh[use.refresh].consumed.None? && st.refresh[use.refresh].session == pair.session
  }

  // The three rows a promise rests on are still there.
  ghost predicate KeepsRows(st: Auth, after: Auth, digest: Id)
    requires digest in st.refresh && st.refresh[digest].consumed.Some?
  {
    var use := st.refresh[digest].consumed.value;
    && digest in after.refresh && after.refresh[digest] == st.refresh[digest]
    && (use.refresh in st.refresh ==> use.refresh in after.refresh && after.refresh[use.refresh] == st.refresh[use.refresh])
    && (use.access in st.access ==> use.access in after.access && after.access[use.access] == st.access[use.access])
  }

  lemma KeptPromise(st: Auth, after: Auth, digest: Id, request: string, pair: Pair)
    requires Promises(st, digest, request, pair) && KeepsRows(st, after, digest)
    requires pair.session in after.sessions && after.sessions[pair.session].expiresAt == pair.sessionExpiresAt
    ensures Promises(after, digest, request, pair)
  {
  }

  // ---------- The prunes keep promises ----------

  lemma DropKeepsPromise(st: Auth, ids: set<Id>, digest: Id, request: string, pair: Pair)
    requires Promises(st, digest, request, pair) && pair.session !in ids
    ensures Promises(DropTokens(st, ids), digest, request, pair)
    ensures Promises(DropSessions(st, ids), digest, request, pair)
  {
    KeptPromise(st, DropTokens(st, ids), digest, request, pair);
    KeptPromise(st, DropSessions(st, ids), digest, request, pair);
  }

  lemma RevokeKeepsPromise(st: Auth, ids: set<Id>, now: int, digest: Id, request: string, pair: Pair)
    requires Promises(st, digest, request, pair)
    ensures Promises(st.(sessions := Revoke(st.sessions, ids, now)), digest, request, pair)
  {
  }

  lemma RevokeAndDropKeepsPromise(st: Auth, ids: set<Id>, now: int, digest: Id, request: string, pair: Pair)
    requires Promises(st, digest, request, pair) && IsOpen(RevokeAndDrop(st, ids, now), pair.session)
    ensures Promises(RevokeAndDrop(st, ids, now), digest, request, pair)
  {
    RevokeKeepsPromise(st, ids, now, digest, request, pair);
    hide Promises;
    DropKeepsPromise(st.(sessions := Revoke(st.sessions, ids, now)), ids, digest, request, pair);
  }

  lemma PruneStaleKeepsPromise(st: Auth, now: int, digest: Id, request: string, pair: Pair)
    requires Promises(st, digest, request, pair) && pair.session in PruneStale(st, now).sessions
    ensures Promises(PruneStale(st, now), digest, request, pair)
  {
    hide Promises, ExpiredSessions, StaleSessions;
    RevokeKeepsPromise(st, ExpiredSessions(st.sessions, now), now, digest, request, pair);
    var revoked := st.(sessions := Revoke(st.sessions, ExpiredSessions(st.sessions, now), now));
    DropKeepsPromise(revoked, StaleSessions(revoked.sessions, now), digest, request, pair);
  }

  lemma PruneExpiredKeepsPromise(st: Auth, now: int, digest: Id, request: string, pair: Pair)
    requires Promises(st, digest, request, pair) && now < pair.refreshExpiresAt
    ensures Promises(PruneExpired(st, now), digest, request, pair)
  {
    var use := st.refresh[digest].consumed.value;
    assert IsRetryable(UnexpiredRefresh(st.refresh, now), digest, now);
    var kept := UsefulRefresh(st.refresh, now);
    assert digest in kept && use.refresh in kept && IsRetryable(kept, digest, now);
    assert IsPromised(kept, use.access, now);
    KeptPromise(st, PruneExpired(st, now), digest, request, pair);
  }

  lemma PruneFamilyKeepsPromise(st: Auth, session: Id, now: int, digest: Id, request: string, pair: Pair)
    requires Promises(st, digest, request, pair) && session != pair.session
    ensures Promises(PruneFamily(st, session, now), digest, request, pair)
  {
    PruneFamilyElsewhere(st, session, now);
    PruneFamilyShrinks(st, session, now);
    hide PruneFamily;
    KeptPromise(st, PruneFamily(st, session, now), digest, request, pair);
  }

  lemma SeenKeepsPromise(st: Auth, session: Id, now: int, digest: Id, request: string, pair: Pair)
    requires Promises(st, digest, request, pair)
    ensures Promises(Seen(st, session, now), digest, request, pair)
  {
  }

  lemma InsertKeepsPromise(st: Auth, session: Id, tok: Tokens, now: int, digest: Id, request: string, pair: Pair)
    requires Promises(st, digest, request, pair) && InsertTokens(st, session, tok, now).Some?
    ensures Promises(InsertTokens(st, session, tok, now).value, digest, request, pair)
  {
  }

  lemma PrepareKeepsPromise(st: Auth, account: Id, installation: string, now: int, digest: Id, request: string,
                            pair: Pair)
    requires Promises(st, digest, request, pair) && IsOpen(PrepareSession(st, account, installation, now), pair.session)
    ensures Promises(PrepareSession(st, account, installation, now), digest, request, pair)
  {
    hide Promises, Replaced, Overflow, Newest, RevokedStamps;
    var replaced := RevokeAndDrop(st, Replaced(st.sessions, account, installation), now);
    var bounded := RevokeAndDrop(replaced, Overflow(replaced.sessions, account), now);
    RevokeAndDropKeepsPromise(st, Replaced(st.sessions, account, installation), now, digest, request, pair);
    RevokeAndDropKeepsPromise(replaced, Overflow(replaced.sessions, account), now, digest, request, pair);
    var stamps := RevokedStamps(bounded.sessions, account);
    DropKeepsPromise(bounded, stamps.Keys - Newest(stamps, MAX_RETAINED_REVOKED), digest, request, pair);
  }

  // ---------- The operations keep promises ----------

  lemma LoginKeepsPromise(st: Auth, id: Id, account: Id, installation: string, tok: Tokens, expiresAt: int, now: int,
                          digest: Id, request: string, pair: Pair)
    requires Promises(st, digest, request, pair) && InsertLogin(st, id, account, installation, tok, expiresAt, now).Some?
    ensures Promises(InsertLogin(st, id, account, installation, tok, expiresAt, now).value, digest, request, pair)
  {
    var added := st.(sessions := st.sessions[id := Session(account, installation, now, now, expiresAt, None)]);
    assert Promises(added, digest, request, pair);
    hide Promises, InsertTokens;
    InsertKeepsPromise(added, id, tok, now, digest, request, pair);
  }

  lemma InsertLoginKeepsOpen(st: Auth, id: Id, account: Id, installation: string, tok: Tokens, expiresAt: int,
                             now: int, s: Id)
    requires InsertLogin(st, id, account, installation, tok, expiresAt, now).Some?
    ensures IsOpen(InsertLogin(st, id, account, installation, tok, expiresAt, now).value, s) <==> IsOpen(st, s) || s == id
  {
  }

  lemma CreateKeepsPromise(st: Auth, account: Id, expected: Id, session: Id, installation: string, tok: Tokens,
                           sessionExpiresAt: int, now: int, digest: Id, request: string, pair: Pair)
    requires Sound(st) && Promises(st, digest, request, pair) && now < pair.refreshExpiresAt
    requires var after := CreateSession(st, account, expected, session, installation, tok, sessionExpiresAt, now);
             IsOpen(after.0, pair.session) && (after.1.SessionOpened? ==> session != pair.session)
    ensures Promises(CreateSession(st, account, expected, session, installation, tok, sessionExpiresAt, now).0, digest,
                     request, pair)
  {
    hide Promises, Sound, PruneStale, PruneExpired, PrepareSession, InsertLogin, FewerRefresh, FewerAccess;
    var after := CreateSession(st, account, expected, session, installation, tok, sessionExpiresAt, now);
    if after.1.SessionOpened? {
      PruneStaleIsSound(st, now);
      var stale := PruneStale(st, now);
      PruneExpiredIsSound(stale, now);
      var pruned := PruneExpired(stale, now);
      PrepareIsSound(pruned, account, installation, now);
      var prepared := PrepareSession(pruned, account, installation, now);
      InsertLoginKeepsOpen(prepared, session, account, installation, tok, sessionExpiresAt, now, pair.session);
      PruneStaleKeepsPromise(st, now, digest, request, pair);
      PruneExpiredKeepsPromise(stale, now, digest, request, pair);
      PrepareKeepsPromise(pruned, account, installation, now, digest, request, pair);
      LoginKeepsPromise(prepared, session, account, installation, tok, sessionExpiresAt, now, digest, request, pair);
    }
  }

  lemma RegisterKeepsPromise(st: Auth, id: Id, email: string, name: string, hash: Id, session: Id, installation: string,
                             tok: Tokens, sessionExpiresAt: int, now: int, digest: Id, request: string, pair: Pair)
    requires Sound(st) && Promises(st, digest, request, pair) && now < pair.refreshExpiresAt
    requires var after := Register(st, id, email, name, hash, session, installation, tok, sessionExpiresAt, now);
             IsOpen(after.0, pair.session) && (after.1.AccountCreated? ==> session != pair.session)
    ensures Promises(Register(st, id, email, name, hash, session, installation, tok, sessionExpiresAt, now).0, digest,
                     request, pair)
  {
    hide Sound, PruneStale, PruneExpired, InsertLogin, FewerRefresh, FewerAccess;
    var after := Register(st, id, email, name, hash, session, installation, tok, sessionExpiresAt, now);
    if after.1.AccountCreated? {
      var a := Account(email, name, hash, Active, None, true, now, now);
      var next := st.(accounts := st.accounts[id := a]);
      MoreAccountsIsSound(st, id, a);
      assert Promises(next, digest, request, pair);
      hide Promises;
      PruneStaleIsSound(next, now);
      var stale := PruneStale(next, now);
      PruneExpiredIsSound(stale, now);
      var pruned := PruneExpired(stale, now);
      InsertLoginKeepsOpen(pruned, session, id, installation, tok, sessionExpiresAt, now, pair.session);
      PruneStaleKeepsPromise(next, now, digest, request, pair);
      PruneExpiredKeepsPromise(stale, now, digest, request, pair);
      LoginKeepsPromise(pruned, session, id, installation, tok, sessionExpiresAt, now, digest, request, pair);
    }
  }

  // The token a promise would hand out.
  function NextOf(st: Auth, digest: Id): Id {
    if digest in st.refresh && st.refresh[digest].consumed.Some? then st.refresh[digest].consumed.value.refresh else 0
  }

  // In a family only the promise's own two tokens belong to its session.
  lemma TwoOfSession(st: Auth, digest: Id, request: string, pair: Pair, d: Id)
    requires Families(st.refresh, st.access) && Promises(st, digest, request, pair)
    requires d in st.refresh && st.refresh[d].session == pair.session
    ensures d == digest || d == NextOf(st, digest)
  {
    assert SameRole(st.refresh[d], st.refresh[digest]) || SameRole(st.refresh[d], st.refresh[NextOf(st, digest)]);
  }

  lemma ExchangeKeepsPromise(st: Auth, d: Id, request': string, tok: Tokens, now: int, mid: Auth,
                             digest: Id, request: string, pair: Pair)
    requires Promises(st, digest, request, pair) && Exchanged(st, d, request', tok, now, mid)
    requires st.refresh[d].session != pair.session
    ensures Promises(mid, digest, request, pair)
  {
  }

  lemma RenewKeepsPromise(st: Auth, d: Id, request': string, tok: Tokens, now: int,
                          digest: Id, request: string, pair: Pair)
    requires Promises(st, digest, request, pair) && now < pair.refreshExpiresAt
    requires IsJoined(st, d) && st.refresh[d].session != pair.session
    ensures Renew(st, d, request', tok, now).1.Rotated? ==> Promises(Renew(st, d, request', tok, now).0, digest, request, pair)
  {
    hide Promises, PruneFamily, PruneExpired, Seen, InsertTokens, Consume;
    var id := st.refresh[d].session;
    var capped := Capped(tok, st.sessions[id].expiresAt);
    var added := InsertTokens(Consume(st, d, Consumption(now, request', tok.refresh, tok.access)), id, capped, now);
    if added.Some? {
      assert Exchanged(st, d, request', capped, now, added.value);
      ExchangeKeepsPromise(st, d, request', capped, now, added.value, digest, request, pair);
      PruneFamilyKeepsPromise(added.value, id, now, digest, request, pair);
      var pruned := PruneFamily(added.value, id, now);
      PruneExpiredKeepsPromise(pruned, now, digest, request, pair);
      SeenKeepsPromise(PruneExpired(pruned, now), id, now, digest, request, pair);
    }
  }

  lemma RetryKeepsPromise(st: Auth, d: Id, request': string, now: int, digest: Id, request: string, pair: Pair)
    requires Promises(st, digest, request, pair) && IsJoined(st, d) && st.refresh[d].consumed.Some?
    ensures Promises(Retry(st, d, request', now).0, digest, request, pair)
  {
    hide Promises;
    RevokeKeepsPromise(st, {st.refresh[d].session}, now, digest, request, pair);
  }

  lemma PrunedPromise(st: Auth, now: int, digest: Id, request: string, pair: Pair)
    requires Sound(st) && Promises(st, digest, request, pair) && pair.session in PruneStale(st, now).sessions
    ensures var pruned := PruneStale(st, now);
            && Sound(pruned) && Promises(pruned, digest, request, pair)
            && NextOf(pruned, digest) == NextOf(st, digest)
  {
    PruneStaleKeepsPromise(st, now, digest, request, pair);
    PruneStaleIsSound(st, now);
    hide Sound;
  }

  lemma OthersOfSession(st: Auth, digest: Id, request: string, pair: Pair, d: Id)
    requires Sound(st) && Promises(st, digest, request, pair)
    requires d in st.refresh && st.refresh[d].consumed.None? && d != NextOf(st, digest)
    ensures st.refresh[d].session != pair.session
  {
    hide Linked, GoodSessions, BoundedAccess;
    if st.refresh[d].session == pair.session {
      TwoOfSession(st, digest, request, pair, d);
    }
  }

  lemma PrunedRotation(pruned: Auth, id: Id, now: int, digest: Id, request: string, pair: Pair)
    requires Promises(pruned, digest, request, pair) && now < pair.refreshExpiresAt && id != pair.session
    ensures Promises(PruneExpired(PruneFamily(pruned, id, now), now), digest, request, pair)
  {
    hide Promises, PruneExpired, PruneFamily;
    PruneFamilyKeepsPromise(pruned, id, now, digest, request, pair);
    PruneExpiredKeepsPromise(PruneFamily(pruned, id, now), now, digest, request, pair);
  }

  lemma RotateKeepsPromise(st: Auth, d: Id, installation: string, request': string, tok: Tokens, now: int,
                           digest: Id, request: string, pair: Pair)
    requires Sound(st) && Promises(st, digest, request, pair) && now < pair.refreshExpiresAt && d != NextOf(st, digest)
    requires pair.session in PruneStale(st, now).sessions
    ensures Promises(Rotate(st, d, installation, request', tok, now).0, digest, request, pair)
  {
    hide Promises, Sound, PruneStale, PruneExpired, PruneFamily, Retry, Renew, NextOf;
    var pruned := PruneStale(st, now);
    PrunedPromise(st, now, digest, request, pair);
    PruneExpiredKeepsPromise(pruned, now, digest, request, pair);
    if IsJoined(pruned, d) {
      if pruned.refresh[d].consumed.Some? {
        RetryKeepsPromise(pruned, d, request', now, digest, request, pair);
      } else {
        OthersOfSession(pruned, digest, request, pair, d);
        RenewKeepsPromise(pruned, d, request', tok, now, digest, request, pair);
        RenewOutcome(pruned, d, request', tok, now);
        PrunedRotation(pruned, pruned.refresh[d].session, now, digest, request, pair);
      }
    }
  }

  // A session that is open after a rotation was open after the first prune.
  lemma OpenAfterRotate(st: Auth, d: Id, installation: string, request: string, tok: Tokens, now: int, s: Id)
    requires IsOpen(Rotate(st, d, installation, request, tok, now).0,
                    s) && s in st.sessions && now < st.sessions[s].expiresAt
    ensures IsOpen(PruneStale(st, now), s)
  {
    hide Rotate;
    RotateSessions(st, d, installation, request, tok, now);
  }

  // ---------- Every step and every run ----------

  lemma SameTablesKeepPromise(st: Auth, after: Auth, digest: Id, request: string, pair: Pair)
    requires Promises(st, digest, request, pair)
    requires after.refresh == st.refresh && after.access == st.access && after.sessions == st.sessions
    ensures Promises(after, digest, request, pair)
  {
  }

  // No operation takes its session's place: it has an id of its own.
  predicate Reopens(op: Op, session: Id) {
    (op.OpRegister? && op.session == session) || (op.OpCreateSession? && op.session == session)
  }

  // The operation presents the token the promise hands out, which is the next rotation.
  predicate Presents(op: Op, d: Id) {
    op.OpRotate? && op.digest == d
  }

  lemma ResetKeepsPromise(st: Auth, d: Id, request': string, payload: Id, hash: Id, now: int,
                          digest: Id, request: string, pair: Pair)
    requires Promises(st, digest, request, pair) && IsOpen(ConfirmReset(st, d, request', payload, hash, now).0,
                                                           pair.session)
    ensures Promises(ConfirmReset(st, d, request', payload, hash, now).0, digest, request, pair)
  {
    if StateOf(st, d, PasswordReset, None, request', payload, now).TokenActive? {
      var account := st.actions[d].account;
      var after := ConfirmReset(st, d, request', payload, hash, now).0;
      assert pair.session !in SessionsOf(st.sessions, account);
      KeptPromise(st, after, digest, request, pair);
    }
  }

  lemma StepKeepsPromise(st: Auth, op: Op, digest: Id, request: string, pair: Pair)
    requires Sound(st) && Promises(st, digest, request, pair)
    requires op.now < pair.refreshExpiresAt && !Presents(op, NextOf(st, digest)) && !Reopens(op, pair.session)
    requires IsOpen(Step(st, op), pair.session)
    ensures Promises(Step(st, op), digest, request, pair)
  {
    hide Promises, Sound, Rotate, CreateSession, Register, ConfirmReset, NextOf, Supersede, PruneActions;
    match op
    case OpRegister(id, email, name, hash, session, installation, tokens, sessionExpiresAt, now) =>
      RegisterKeepsPromise(st, id, email, name, hash, session, installation, tokens, sessionExpiresAt, now, digest,
                           request, pair);
    case OpCreateSession(account, expectedHash, session, installation, tokens, sessionExpiresAt, now) =>
      CreateKeepsPromise(st, account, expectedHash, session, installation, tokens, sessionExpiresAt, now, digest,
                         request, pair);
    case OpRotate(d, installation, request', tokens, now) =>
      PromisedSession(st, digest, request, pair);
      OpenAfterRotate(st, d, installation, request', tokens, now, pair.session);
      RotateKeepsPromise(st, d, installation, request', tokens, now, digest, request, pair);
    case OpConfirmReset(d, request', payload, hash, now) =>
      ResetKeepsPromise(st, d, request', payload, hash, now, digest, request, pair);
    case OpLogout(d, now) =>
      if d in st.access {
        RevokeKeepsPromise(st, {st.access[d].session}, now, digest, request, pair);
      }
    case OpSetStatus(account, status, now) =>
      RevokeKeepsPromise(st, OpenOf(st.sessions, account), now, digest, request, pair);
      SetStatusTables(st, account, status, now);
      SameTablesKeepPromise(if status.Active? then st else st.(sessions := Revoke(st.sessions, OpenOf(st.sessions, account), now)),
                            Step(st, op), digest, request, pair);
    case _ => SameTablesKeepPromise(st, Step(st, op), digest, request, pair);
  }

  lemma PromisedSession(st: Auth, digest: Id, request: string, pair: Pair)
    requires Promises(st, digest, request, pair)
    ensures pair.session in st.sessions && pair.refreshExpiresAt <= st.sessions[pair.session].expiresAt
  {
  }

  lemma SetStatusTables(st: Auth, account: Id, status: Status, now: int)
    ensures var after := SetStatus(st, account, status, now);
            && after.refresh == st.refresh && after.access == st.access
            && after.sessions == if status.Active? then st.sessions else Revoke(st.sessions, OpenOf(st.sessions, account), now)
  {
  }

  // ---------- A rotation makes a promise ----------

  lemma ExchangeMakesPromise(st: Auth, d: Id, request: string, tok: Tokens, now: int, mid: Auth, sessionExpiresAt: int)
    requires Exchanged(st, d, request, tok, now, mid) && st.refresh[d].session in st.sessions
    requires tok.refreshExpiresAt <= sessionExpiresAt == st.sessions[st.refresh[d].session].expiresAt
    ensures Promises(mid, d, request, Pair(st.refresh[d].session, sessionExpiresAt, tok.accessNonce, tok.refreshNonce,
                                           tok.accessExpiresAt, tok.refreshExpiresAt))
  {
  }

  lemma PruneFamilyKeepsOwn(st: Auth, now: int, digest: Id, request: string, pair: Pair)
    requires Promises(st, digest, request, pair) && OneChain(st, pair.session) && now < pair.refreshExpiresAt
    ensures Promises(PruneFamily(st, pair.session, now), digest, request, pair)
  {
    PrunedFamilyIs(st, pair.session, now);
    PruneFamilyShrinks(st, pair.session, now);
    hide PruneFamily, OneChain;
    var after, use := PruneFamily(st, pair.session, now), st.refresh[digest].consumed.value;
    assert IsLive(st.refresh, use.refresh, now) && IsKept(st.refresh, digest, now);
    assert IsSpent(st.refresh, pair.session, digest) && KeepsAccess(st, after, digest);
    KeptPromise(st, after, digest, request, pair);
  }

  // A rotation whose new token is not born expired can be retried.
  lemma RenewPromises(st: Auth, d: Id, request: string, tok: Tokens, now: int)
    requires Families(st.refresh, st.access) && IsJoined(st, d) && st.refresh[d].consumed.None?
    requires now < tok.refreshExpiresAt && now < st.sessions[st.refresh[d].session].expiresAt
    ensures var r := Renew(st, d, request, tok, now);
            r.1.Rotated? ==> Promises(r.0, d, request, r.1.pair) && now < r.1.pair.refreshExpiresAt
  {
    hide Promises, PruneFamily, PruneExpired, Seen, InsertTokens, Consume, Families;
    var id := st.refresh[d].session;
    var capped := Capped(tok, st.sessions[id].expiresAt);
    var added := InsertTokens(Consume(st, d, Consumption(now, request, tok.refresh, tok.access)), id, capped, now);
    if added.Some? {
      var pair := Pair(id, st.sessions[id].expiresAt, tok.accessNonce, tok.refreshNonce, capped.accessExpiresAt,
                       capped.refreshExpiresAt);
      assert Exchanged(st, d, request, capped, now, added.value);
      ExchangeMakesPromise(st, d, request, capped, now, added.value, st.sessions[id].expiresAt);
      ExchangeMakesChain(st, d, request, capped, now, added.value);
      PruneFamilyKeepsOwn(added.value, now, d, request, pair);
      PruneExpiredKeepsPromise(PruneFamily(added.value, id, now), now, d, request, pair);
      SeenKeepsPromise(PruneExpired(PruneFamily(added.value, id, now), now), id, now, d, request, pair);
    }
  }

  lemma SoundFamilies(st: Auth)
    requires Sound(st)
    ensures Families(st.refresh, st.access)
  {
    hide Families;
  }

  lemma RotatePromises(st: Auth, d: Id, installation: string, request: string, tok: Tokens, now: int)
    requires Sound(st) && now < tok.refreshExpiresAt
    ensures var r := Rotate(st, d, installation, request, tok, now);
            r.1.Rotated? ==>
              && Promises(r.0, d, request, r.1.pair) && now < r.1.pair.refreshExpiresAt
              && IsOpen(r.0, r.1.pair.session)
              && r.0.sessions[r.1.pair.session].installation == installation
  {
    hide Promises, Sound, PruneStale, PruneExpired, PruneFamily, Retry, Renew, Shrinks, Families;
    var pruned := PruneStale(st, now);
    PruneStaleIsSound(st, now);
    SoundFamilies(pruned);
    if IsJoined(pruned, d) {
      if pruned.refresh[d].consumed.Some? {
        RetryOutcome(pruned, d, request, now);
      } else {
        RenewSessions(pruned, d, request, tok, now);
        RenewPair(pruned, d, request, tok, now);
        if Renew(pruned, d, request, tok, now).1.Rotated? {
          RenewStaysOpen(pruned, d, request, tok, now);
        }
        if now < pruned.sessions[pruned.refresh[d].session].expiresAt {
          RenewPromises(pruned, d, request, tok, now);
        }
      }
    }
  }

  lemma RenewStaysOpen(st: Auth, d: Id, request: string, tok: Tokens, now: int)
    requires IsJoined(st, d) && Renew(st, d, request, tok, now).1.Rotated?
    ensures IsOpen(Renew(st, d, request, tok, now).0, st.refresh[d].session) <==> IsOpen(st, st.refresh[d].session)
  {
    hide PruneFamily, PruneExpired;
    var id := st.refresh[d].session;
    var capped := Capped(tok, st.sessions[id].expiresAt);
    var added := InsertTokens(Consume(st, d, Consumption(now, request, tok.refresh, tok.access)), id, capped, now);
    PruneFamilyShrinks(added.value, id, now);
    PruneExpiredShrinks(PruneFamily(added.value, id, now), now);
  }

  lemma RetryOutcome(st: Auth, d: Id, request: string, now: int)
    requires IsJoined(st, d) && st.refresh[d].consumed.Some?
    ensures !Retry(st, d, request, now).1.Rotated?
  {
  }

  lemma RenewPair(st: Auth, d: Id, request: string, tok: Tokens, now: int)
    requires IsJoined(st, d)
    ensures var r := Renew(st, d, request, tok, now); r.1.Rotated? ==> r.1.pair.session == st.refresh[d].session
  {
  }

  // ---------- A promise is an answer ----------

  lemma OpenStaysOpen(st: Auth, now: int, s: Id)
    requires IsOpen(st, s) && now < st.sessions[s].expiresAt
    ensures s in PruneStale(st, now).sessions && PruneStale(st, now).sessions[s] == st.sessions[s]
  {
  }

  lemma PromiseIsJoined(st: Auth, d: Id, request: string, pair: Pair)
    requires Sound(st) && Promises(st, d, request, pair)
    ensures IsJoined(st, d) && st.refresh[d].session == pair.session
    ensures st.refresh[d].consumed.Some?
    ensures IsOpen(st, pair.session) ==> st.accounts[st.sessions[pair.session].account].status.Active?
  {
    SoundIsLinked(st);
    hide Sound;
    JoinedIsActive(st, d);
  }

  lemma RetryAnswers(st: Auth, d: Id, request: string, now: int, pair: Pair)
    requires Promises(st, d, request, pair) && now < pair.refreshExpiresAt && IsJoined(st, d)
    requires IsOpen(st, pair.session)
    requires st.accounts[st.sessions[pair.session].account].status.Active?
    ensures Retry(st, d, request, now) == (st, Repeated(pair))
  {
  }

  lemma PromiseAnswers(st: Auth, d: Id, installation: string, request: string, tok: Tokens, now: int, pair: Pair)
    requires Sound(st) && Promises(st, d, request, pair) && now < pair.refreshExpiresAt
    requires IsOpen(st, pair.session) && st.sessions[pair.session].installation == installation
    ensures Rotate(st, d, installation, request, tok, now) == (PruneStale(st, now), Repeated(pair))
  {
    hide Sound, PruneStale, PruneExpired, PruneFamily, Retry, Renew, Promises;
    var pruned := PruneStale(st, now);
    PromisedSession(st, d, request, pair);
    OpenStaysOpen(st, now, pair.session);
    PrunedPromise(st, now, d, request, pair);
    PromiseIsJoined(pruned, d, request, pair);
    RetryAnswers(pruned, d, request, now, pair);
  }

  // An operation at an earlier time than the expiry that neither presents the new token nor
  // closes the session.
  ghost predicate Calm(st: Auth, op: Op, d: Id, pair: Pair) {
    && op.now < pair.refreshExpiresAt && !Presents(op, NextOf(st, d)) && !Reopens(op, pair.session)
    && IsOpen(Step(st, op), pair.session)
  }

  ghost predicate Undisturbed(st: Auth, ops: seq<Op>, d: Id, pair: Pair) {
    ops == [] || (Undisturbed(st, ops[..|ops| - 1], d, pair) && Calm(Run(st, ops[..|ops| - 1]), ops[|ops| - 1], d, pair))
  }

  lemma {:induction false} RunKeepsPromise(st: Auth, ops: seq<Op>, d: Id, request: string, pair: Pair)
    requires Sound(st) && Promises(st, d, request, pair) && Undisturbed(st, ops, d, pair) && IsOpen(st, pair.session)
    ensures Promises(Run(st, ops), d, request, pair) && IsOpen(Run(st, ops), pair.session)
    ensures Run(st, ops).sessions[pair.session].installation == st.sessions[pair.session].installation
  {
    hide Promises, Sound, Step, NextOf, Presents, Reopens;
    if ops != [] {
      var init, last := ops[..|ops| - 1], ops[|ops| - 1];
      RunKeepsPromise(st, init, d, request, pair);
      RunIsSound(st, init);
      StepKeepsPromise(Run(st, init), last, d, request, pair);
      StepSessions(Run(st, init), last, pair.session);
    }
  }

  // Every operation leaves a session alone, revokes it, touches it or deletes it, except the one
  // that creates it.
  lemma StepSessions(st: Auth, op: Op, session: Id)
    requires Sound(st) && !Reopens(op, session) && session in Step(st, op).sessions
    ensures session in st.sessions && Continues(st.sessions[session], Step(st, op).sessions[session])
  {
    hide Sound, Rotate, CreateSession, Register, PruneStale, SetStatus, ConfirmReset, Supersede, PruneActions,
         FewerAccess, FewerRefresh;
    match op
    case OpRegister(id, email, name, hash, s, installation, tokens, sessionExpiresAt, now) =>
      RegisterSessions(st, id, email, name, hash, s, installation, tokens, sessionExpiresAt, now, session);
    case OpCreateSession(account, expectedHash, s, installation, tokens, sessionExpiresAt, now) =>
      CreateSessionSessions(st, account, expectedHash, s, installation, tokens, sessionExpiresAt, now, session);
    case OpRotate(d, installation, request', tokens, now) =>
      RotateSessions(st, d, installation, request', tokens, now);
      PruneStaleIsSound(st, now);
    case OpSetStatus(account, status, now) =>
      SetStatusTables(st, account, status, now);
    case OpConfirmReset(d, request', payload, hash, now) =>
      ResetSessions(st, d, request', payload, hash, now);
    case _ =>
  }

  lemma ResetSessions(st: Auth, d: Id, request: string, payload: Id, hash: Id, now: int)
    ensures Fewer(st.sessions, ConfirmReset(st, d, request, payload, hash, now).0.sessions)
  {
  }

  lemma CreateSessionSessions(st: Auth, account: Id, expected: Id, s: Id, installation: string, tok: Tokens,
                              sessionExpiresAt: int, now: int, session: Id)
    requires Sound(st) && session != s
    ensures var after := CreateSession(st, account, expected, s, installation, tok, sessionExpiresAt, now).0;
            session in after.sessions ==> session in st.sessions && Continues(st.sessions[session], after.sessions[session])
  {
    hide Sound, PruneStale, PruneExpired, PrepareSession, FewerAccess, FewerRefresh;
    PruneStaleIsSound(st, now);
    var stale := PruneStale(st, now);
    PruneExpiredIsSound(stale, now);
    var pruned := PruneExpired(stale, now);
    PrepareIsSound(pruned, account, installation, now);
  }

  lemma RegisterSessions(st: Auth, id: Id, email: string, name: string, hash: Id, s: Id, installation: string,
                         tok: Tokens, sessionExpiresAt: int, now: int, session: Id)
    requires Sound(st) && session != s
    ensures var after := Register(st, id, email, name, hash, s, installation, tok, sessionExpiresAt, now).0;
            session in after.sessions ==> session in st.sessions && Continues(st.sessions[session], after.sessions[session])
  {
    hide Sound, PruneStale, PruneExpired, FewerAccess, FewerRefresh;
    if id !in st.accounts {
      var a := Account(email, name, hash, Active, None, true, now, now);
      var next := st.(accounts := st.accounts[id := a]);
      MoreAccountsIsSound(st, id, a);
      PruneStaleIsSound(next, now);
      PruneExpiredIsSound(PruneStale(next, now), now);
    }
  }

  // Whatever other operations run in between, the exact retry of a rotation is answered with the
  // same pair until the new token is presented, the session is closed or the pair has expired.
  lemma ExactRetryGetsSamePair(st: Auth, d: Id, installation: string, request: string, tok: Tokens, now: int,
                               ops: seq<Op>, retried: Tokens, later: int)
    requires Sound(st) && now < tok.refreshExpiresAt
    requires var r := Rotate(st, d, installation, request, tok, now);
             && r.1.Rotated?
             && Undisturbed(r.0, ops, d, r.1.pair) && later < r.1.pair.refreshExpiresAt
    ensures var r := Rotate(st, d, installation, request, tok, now);
            Rotate(Run(r.0, ops), d, installation, request, retried, later).1 == Repeated(r.1.pair)
  {
    hide Promises, Sound, Rotate, Run, Undisturbed;
    var r := Rotate(st, d, installation, request, tok, now);
    RotateIsSound(st, d, installation, request, tok, now);
    RotatePromises(st, d, installation, request, tok, now);
    RunKeepsPromise(r.0, ops, d, request, r.1.pair);
    RunIsSound(r.0, ops);
    PromiseAnswers(Run(r.0, ops), d, installation, request, retried, later, r.1.pair);
  }
}
