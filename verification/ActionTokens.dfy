/** Action tokens: one pending token per account and purpose, each used at most once, and a
    retry that changes nothing. */
module ActionTokens {
  import opened Basics
  import opened AuthTables
  import opened AuthMachine
  import opened AuthInvariant

  // ---------- One pending token per account and purpose ----------

  predicate SameTarget(a: Action, b: Action) {
    IsPending(a) && IsPending(b) && a.account == b.account && a.purpose == b.purpose
  }

  ghost predicate OnePending(actions: map<Id, Action>) {
    forall d, e :: d in actions && e in actions && SameTarget(actions[d], actions[e]) ==> d == e
  }

  // Tokens are only deleted, superseded or used.
  ghost predicate Spends(before: map<Id, Action>, after: map<Id, Action>) {
    forall d :: d in after ==>
      && d in before && after[d].account == before[d].account && after[d].purpose == before[d].purpose
      && (IsPending(after[d]) ==> IsPending(before[d]))
  }

  lemma SpendingKeepsOne(before: map<Id, Action>, after: map<Id, Action>)
    requires OnePending(before) && Spends(before, after)
    ensures OnePending(after)
  {
    forall d, e | d in after && e in after && SameTarget(after[d], after[e]) ensures d == e {
      assert SameTarget(before[d], before[e]);
    }
  }

  lemma IssueKeepsOne(st: Auth, account: Id, purpose: Purpose, digest: Id, nonce: Id, expiresAt: int, now: int)
    requires OnePending(st.actions) && Issue(st, account, purpose, digest, nonce, expiresAt, now).Some?
    ensures OnePending(Issue(st, account, purpose, digest, nonce, expiresAt, now).value.actions)
  {
    var rest := Supersede(PruneActions(st.actions, now), account, purpose, {}, now);
    SpendingKeepsOne(st.actions, rest);
    var after := Issue(st, account, purpose, digest, nonce, expiresAt, now).value.actions;
    forall d | d in rest ensures !SameTarget(rest[d], after[digest]) && !SameTarget(after[digest], rest[d]) {
    }
  }

  // The operations that hand out a token.
  predicate Issues(op: Op, d: Id) {
    (op.OpIssueForAccount? && op.digest == d) || (op.OpIssueForEmail? && op.digest == d)
  }

  predicate Confirms(op: Op, d: Id) {
    (op.OpConfirmEmail? && op.digest == d) || (op.OpConfirmReset? && op.digest == d)
  }

  ghost predicate Consumes(st: Auth, op: Op, d: Id) {
    match op
    case OpConfirmEmail(digest, account, request, payload, now) =>
      digest == d && ConfirmEmail(st, digest, account, request, payload, now).1.ActionConsumed?
    case OpConfirmReset(digest, request, payload, hash, now) =>
      digest == d && ConfirmReset(st, digest, request, payload, hash, now).1.ActionConsumed?
    case _ => false
  }

  predicate Usable(st: Auth, d: Id) {
    d in st.actions && IsPending(st.actions[d])
  }

  lemma ResetActions(st: Auth, account: Id, digest: Id, request: string, payload: Id, hash: Id, now: int)
    requires account in st.accounts
    ensures ResetPassword(st, account, digest, request, payload, hash, now).actions
            == MarkUsed(st.actions, digest, Use(now, request, payload))
  {
  }

  lemma MarkSpends(actions: map<Id, Action>, digest: Id, use: Use)
    ensures Spends(actions, MarkUsed(actions, digest, use))
    ensures digest in actions ==> !IsPending(MarkUsed(actions, digest, use)[digest])
  {
  }

  lemma SupersedeSpends(actions: map<Id, Action>, account: Id, purpose: Purpose, except: set<Id>, now: int)
    ensures Spends(actions, Supersede(actions, account, purpose, except, now))
  {
  }

  lemma SpendsTransitive(a: map<Id, Action>, b: map<Id, Action>, c: map<Id, Action>)
    requires Spends(a, b) && Spends(b, c)
    ensures Spends(a, c)
  {
  }

  // A confirmation spends its token when it is consumed, and otherwise changes nothing at all.
  lemma ResetSpends(st: Auth, d: Id, request: string, payload: Id, hash: Id, now: int)
    ensures var r := ConfirmReset(st, d, request, payload, hash, now);
            && Spends(st.actions, r.0.actions)
            && (r.1.ActionConsumed? ==> Usable(st, d) && !Usable(r.0, d))
            && (!r.1.ActionConsumed? ==> r.0 == st)
  {
    hide ResetPassword;
    if StateOf(st, d, PasswordReset, None, request, payload, now).TokenActive? {
      var account := st.actions[d].account;
      ResetActions(st, account, d, request, payload, hash, now);
      var used := MarkUsed(st.actions, d, Use(now, request, payload));
      MarkSpends(st.actions, d, Use(now, request, payload));
      SupersedeSpends(used, account, PasswordReset, {d}, now);
      SpendsTransitive(st.actions, used, Supersede(used, account, PasswordReset, {d}, now));
    }
  }

  lemma EmailSpends(st: Auth, d: Id, account: Id, request: string, payload: Id, now: int)
    ensures var r := ConfirmEmail(st, d, account, request, payload, now);
            && Spends(st.actions, r.0.actions)
            && (r.1.ActionConsumed? ==> Usable(st, d) && !Usable(r.0, d))
            && (!r.1.ActionConsumed? ==> r.0 == st)
  {
    MarkSpends(st.actions, d, Use(now, request, payload));
  }

  lemma RotateActions(st: Auth, d: Id, installation: string, request: string, tok: Tokens, now: int)
    ensures Rotate(st, d, installation, request, tok, now).0.actions == st.actions
  {
    hide UsefulRefresh, KeptAccess, Current, Parent, Revoke, StaleSessions, ExpiredSessions;
  }

  lemma CreateActions(st: Auth, account: Id, expected: Id, session: Id, installation: string, tok: Tokens,
                      sessionExpiresAt: int, now: int)
    ensures CreateSession(st, account, expected, session, installation, tok, sessionExpiresAt,
                          now).0.actions == st.actions
  {
    hide UsefulRefresh, Revoke, StaleSessions, ExpiredSessions, Newest, RevokedStamps, Overflow, Replaced;
  }

  lemma RegisterActions(st: Auth, id: Id, email: string, name: string, hash: Id, session: Id, installation: string,
                        tok: Tokens, sessionExpiresAt: int, now: int)
    ensures Register(st, id, email, name, hash, session, installation, tok, sessionExpiresAt, now).0.actions == st.actions
  {
    hide UsefulRefresh, Revoke, StaleSessions, ExpiredSessions;
  }

  lemma IssueEffect(st: Auth, account: Id, purpose: Purpose, digest: Id, nonce: Id, expiresAt: int, now: int, d: Id)
    requires OnePending(st.actions)
    ensures var after := IssueOrFail(st, account, purpose, digest, nonce, expiresAt, now).0;
            OnePending(after.actions) && (d != digest && Usable(after, d) ==> Usable(st, d))
  {
    if Issue(st, account, purpose, digest, nonce, expiresAt, now).Some? {
      IssueKeepsOne(st, account, purpose, digest, nonce, expiresAt, now);
    }
  }

  // What a step does to the tokens: at most one stays pending per target, only an issue makes a
  // token usable, and only a consumption counts against it.
  lemma StepActions(st: Auth, op: Op, d: Id)
    requires OnePending(st.actions)
    ensures OnePending(Step(st, op).actions)
    ensures Usable(Step(st, op), d) ==> Usable(st, d) || Issues(op, d)
    ensures Consumes(st, op, d) ==> Usable(st, d) && !Usable(Step(st, op), d)
    ensures Confirms(op, d) && !Consumes(st, op, d) ==> Step(st, op) == st
  {
    hide Rotate, CreateSession, Register, ConfirmReset, ConfirmEmail, SetStatus, IssueOrFail, OnePending, Spends;
    match op
    case OpRegister(id, email, name, hash, session, installation, tokens, sessionExpiresAt, now) =>
      RegisterActions(st, id, email, name, hash, session, installation, tokens, sessionExpiresAt, now);
    case OpCreateSession(account, expectedHash, session, installation, tokens, sessionExpiresAt, now) =>
      CreateActions(st, account, expectedHash, session, installation, tokens, sessionExpiresAt, now);
    case OpRotate(digest, installation, request, tokens, now) => RotateActions(st, digest, installation, request, tokens, now);
    case OpConfirmReset(digest, request, payload, hash, now) =>
      ResetSpends(st, digest, request, payload, hash, now);
      SpentUnusable(st.actions, Step(st, op).actions, d);
      SpendingKeepsOne(st.actions, Step(st, op).actions);
    case OpConfirmEmail(digest, account, request, payload, now) =>
      EmailSpends(st, digest, account, request, payload, now);
      SpentUnusable(st.actions, Step(st, op).actions, d);
      SpendingKeepsOne(st.actions, Step(st, op).actions);
    case OpIssueForAccount(account, purpose, digest, nonce, expiresAt, now) =>
      IssueEffect(st, account, purpose, digest, nonce, expiresAt, now, d);
    case OpIssueForEmail(email, purpose, digest, nonce, expiresAt, now) =>
      var a := ActiveAccount(st.accounts, email);
      if a.Some? {
        IssueEffect(st, a.value, purpose, digest, nonce, expiresAt, now, d);
      } else {
        PrunedSpends(st.actions, now);
        SpentUnusable(st.actions, PruneActions(st.actions, now), d);
        SpendingKeepsOne(st.actions, PruneActions(st.actions, now));
      }
    case OpSetStatus(account, status, now) => SetStatusActions(st, account, status, now);
    case _ =>
  }

  lemma SetStatusActions(st: Auth, account: Id, status: Status, now: int)
    ensures SetStatus(st, account, status, now).actions == st.actions
  {
  }

  lemma PrunedSpends(actions: map<Id, Action>, now: int)
    ensures Spends(actions, PruneActions(actions, now))
  {
  }

  lemma SpentUnusable(before: map<Id, Action>, after: map<Id, Action>, d: Id)
    requires Spends(before, after)
    ensures d in after && IsPending(after[d]) ==> d in before && IsPending(before[d])
  {
  }

  // ---------- Over whole runs ----------

  // How often a run consumes a token, and how often it hands it out.
  ghost function Consumptions(st: Auth, ops: seq<Op>, d: Id): nat {
    if ops == [] then 0
    else
      var init, last := ops[..|ops| - 1], ops[|ops| - 1];
      Consumptions(st, init, d) + if Consumes(Run(st, init), last, d) then 1 else 0
  }

  function TimesIssued(ops: seq<Op>, d: Id): nat {
    if ops == [] then 0
    else TimesIssued(ops[..|ops| - 1], d) + if Issues(ops[|ops| - 1], d) then 1 else 0
  }

  function Left(st: Auth, d: Id): nat {
    if Usable(st, d) then 1 else 0
  }

  // A token is consumed no more often than it was handed out.
  lemma {:induction false} UsedAtMostOnce(st: Auth, ops: seq<Op>, d: Id)
    requires OnePending(st.actions)
    ensures OnePending(Run(st, ops).actions)
    ensures Consumptions(st, ops, d) + Left(Run(st, ops), d) <= TimesIssued(ops, d) + Left(st, d)
  {
    hide OnePending, Step, Consumes, Issues, Usable;
    if ops != [] {
      var init, last := ops[..|ops| - 1], ops[|ops| - 1];
      UsedAtMostOnce(st, init, d);
      StepActions(Run(st, init), last, d);
    }
  }

  // From an empty database, a reset token changes the password at most as often as it was handed
  // out, that is once, and a repeated confirmation changes nothing: it cannot close sessions that
  // were opened after the reset.
  lemma ActionTokensAreSingleUse(ops: seq<Op>, d: Id, request: string, payload: Id, hash: Id, now: int)
    ensures var st := Run(EMPTY, ops);
            && OnePending(st.actions)
            && Consumptions(EMPTY, ops, d) <= TimesIssued(ops, d)
            && (TimesIssued(ops, d) <= 1 && Consumptions(EMPTY, ops, d) == 1 ==>
                  ConfirmReset(st, d, request, payload, hash, now).0 == st)
  {
    var st := Run(EMPTY, ops);
    UsedAtMostOnce(EMPTY, ops, d);
    ResetSpends(st, d, request, payload, hash, now);
    hide Run, Consumptions, TimesIssued, ConfirmReset;
  }

  // The last statement of a reset, which supersedes the other pending tokens, touches no row.
  lemma LastSupersedeIsIdle(st: Auth, d: Id, request: string, payload: Id, hash: Id, now: int)
    requires OnePending(st.actions) && ConfirmReset(st, d, request, payload, hash, now).1.ActionConsumed?
    ensures var account := st.actions[d].account;
            && d in st.actions && account in st.accounts
            && ConfirmReset(st, d, request, payload, hash, now).0 == ResetPassword(st, account, d, request, payload, hash, now)
  {
    var account := st.actions[d].account;
    hide ResetPassword;
    ResetActions(st, account, d, request, payload, hash, now);
    var used := MarkUsed(st.actions, d, Use(now, request, payload));
    forall e | e in used && e != d && used[e].account == account && used[e].purpose == PasswordReset
      ensures !IsPending(used[e])
    {
      assert !SameTarget(st.actions[e], st.actions[d]);
    }
    assert Supersede(used, account, PasswordReset, {d}, now) == used;
  }

  // A consumed reset sets the password, closes every session of the account, drops all their
  // tokens, and leaves every other account alone.
  lemma ResetEffect(st: Auth, d: Id, request: string, payload: Id, hash: Id, now: int)
    requires ConfirmReset(st, d, request, payload, hash, now).1.ActionConsumed?
    ensures d in st.actions
    ensures var after := ConfirmReset(st, d, request, payload, hash, now).0; var account := st.actions[d].account;
            && account in st.accounts && account in after.accounts
            && after.accounts[account] == st.accounts[account].(passwordHash := hash, updatedAt := now)
            && OpenOf(after.sessions, account) == {} && after.sessions.Keys == st.sessions.Keys
            && (forall s :: s in st.sessions && st.sessions[s].account == account ==>
                  after.sessions[s] == st.sessions[s].(revokedAt := if st.sessions[s].revokedAt.None? then Some(now)
                                                                    else st.sessions[s].revokedAt))
            && (forall a :: a in after.access && after.access[a].session in st.sessions ==>
                  st.sessions[after.access[a].session].account != account)
            && (forall r :: r in after.refresh && after.refresh[r].session in st.sessions ==>
                  st.sessions[after.refresh[r].session].account != account)
            && (forall a :: a != account ==> OpenOf(after.sessions, a) == OpenOf(st.sessions, a))
            && (forall a :: a != account && a in st.accounts ==> a in after.accounts && after.accounts[a] == st.accounts[a])
  {
    hide Supersede, MarkUsed;
    var after, account := ConfirmReset(st, d, request, payload, hash, now).0, st.actions[d].account;
    assert after.sessions == Revoke(st.sessions, OpenOf(st.sessions, account), now);
    forall a: Id | a != account ensures OpenOf(after.sessions, a) == OpenOf(st.sessions, a) {
    }
  }

  // What a reset leaves alone: the sessions of other accounts with all their tokens, and the
  // action tokens of other accounts and of other purposes.
  lemma ResetFrame(st: Auth, d: Id, request: string, payload: Id, hash: Id, now: int, x: Id)
    requires ConfirmReset(st, d, request, payload, hash, now).1.ActionConsumed?
    ensures d in st.actions
    ensures var after := ConfirmReset(st, d, request, payload, hash, now).0; var account := st.actions[d].account;
            && (x in st.sessions && st.sessions[x].account != account ==>
                  x in after.sessions && after.sessions[x] == st.sessions[x])
            && (x in st.access && !OwnedBy(st, st.access[x].session, account) ==>
                  x in after.access && after.access[x] == st.access[x])
            && (x in st.refresh && !OwnedBy(st, st.refresh[x].session, account) ==>
                  x in after.refresh && after.refresh[x] == st.refresh[x])
            && (x in st.actions && (st.actions[x].account != account || st.actions[x].purpose != PasswordReset) ==>
                  x in after.actions && after.actions[x] == st.actions[x])
  {
  }

  predicate OwnedBy(st: Auth, session: Id, account: Id) {
    session in st.sessions && st.sessions[session].account == account
  }

  // A token that was handed out is the only one of its account and purpose that can be used.
  lemma IssuedIsTheOnlyPending(st: Auth, account: Id, purpose: Purpose, digest: Id, nonce: Id, expiresAt: int, now: int, d: Id)
    requires IssueOrFail(st, account, purpose, digest, nonce, expiresAt, now).1.Issued?
    ensures var after := IssueOrFail(st, account, purpose, digest, nonce, expiresAt, now).0;
            && Usable(after, digest) && after.actions[digest].expiresAt == expiresAt
            && (Usable(after, d) && after.actions[d].account == account && after.actions[d].purpose == purpose ==> d == digest)
            && (d in st.actions && d != digest && !(st.actions[d].account == account && st.actions[d].purpose == purpose)
                && now - RETENTION_GRACE_MS <= st.actions[d].expiresAt ==>
                  d in after.actions && after.actions[d] == st.actions[d])
  {
  }

  // A consumed confirmation leaves the address verified, since the first time it was, and touches
  // neither passwords nor sessions.
  lemma EmailEffect(st: Auth, d: Id, account: Id, request: string, payload: Id, now: int)
    requires ConfirmEmail(st, d, account, request, payload, now).1.ActionConsumed?
    ensures account in st.accounts
    ensures var after := ConfirmEmail(st, d, account, request, payload, now).0;
            && account in after.accounts
            && after.accounts[account]
               == st.accounts[account].(updatedAt := now, verifiedAt := if st.accounts[account].verifiedAt.None? then Some(now)
                                                                        else st.accounts[account].verifiedAt)
            && after.sessions == st.sessions && after.access == st.access && after.refresh == st.refresh
            && (forall a :: a != account && a in st.accounts ==> a in after.accounts && after.accounts[a] == st.accounts[a])
            && (forall a :: a in after.accounts ==> a in st.accounts)
            && (forall e :: e != d && e in st.actions ==> e in after.actions && after.actions[e] == st.actions[e])
  {
  }
}
