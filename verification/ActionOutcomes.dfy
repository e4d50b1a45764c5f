/** What the operations on action tokens answer, and what they leave behind, said in terms of the
    rows as they stood before the call. */
module ActionOutcomes {
  import opened Basics
  import opened AuthTables
  import opened AuthMachine
  import opened AuthInvariant
  import opened AuthOperations
  import opened ActionTokens

  // ---------- Confirmations ----------

  // A token for this purpose, and this account if one is given.
  predicate IsFor(st: Auth, d: Id, purpose: Purpose, account: Option<Id>) {
    && d in st.actions && st.actions[d].purpose == purpose && st.actions[d].account in st.accounts
    && (account == None || account == Some(st.actions[d].account))
  }

  predicate IsUnspent(st: Auth, d: Id) {
    d in st.actions && st.actions[d].used == None && st.actions[d].supersededAt == None
  }

  predicate WasUsedBy(st: Auth, d: Id, request: string, payload: Id) {
    d in st.actions && match st.actions[d].used
                       case None => false
                       case Some(use) => use.requestId == request && use.payload == payload
  }

  predicate HoldsActive(st: Auth, account: Id) {
    account in st.accounts && st.accounts[account].status == Active
  }

  // The answer to a confirmation, with the exact condition of each case.
  predicate IsAnswer(st: Auth, d: Id, purpose: Purpose, account: Option<Id>, request: string, payload: Id, now: int,
                     o: ActionOutcome)
  {
    var own, unspent := IsFor(st, d, purpose, account), IsUnspent(st, d);
    var active := d in st.actions && HoldsActive(st, st.actions[d].account);
    && (o.ActionConsumed? <==> own && unspent && now < st.actions[d].expiresAt && active)
    && (o.ActionRepeated? <==> own && WasUsedBy(st, d, request, payload))
    && (o.ActionExpired? <==> own && unspent && st.actions[d].expiresAt <= now)
    && (o.ActionUnavailable? <==> own && unspent && now < st.actions[d].expiresAt && !active)
    && (o.ActionInvalid? <==> !own || (!unspent && !WasUsedBy(st, d, request, payload)))
    && (o.ActionConsumed? || o.ActionRepeated? ==> o.account == st.actions[d].account)
  }

  lemma ResetAnswers(st: Auth, d: Id, request: string, payload: Id, hash: Id, now: int)
    ensures IsAnswer(st, d, PasswordReset, None, request, payload, now, ConfirmReset(st, d, request, payload, hash, now).1)
  {
    hide ResetPassword, Supersede;
  }

  lemma EmailAnswers(st: Auth, d: Id, account: Id, request: string, payload: Id, now: int)
    ensures IsAnswer(st, d, EmailVerification, Some(account), request, payload, now,
                     ConfirmEmail(st, d, account, request, payload, now).1)
  {
    hide MarkUsed;
  }

  // ---------- A repeated confirmation ----------

  // An operation that neither hands the token out again nor deletes its row for age.
  predicate Spares(op: Op, d: Id, expiresAt: int) {
    !Issues(op, d) && (op.OpIssueForAccount? || op.OpIssueForEmail? ==> op.now - RETENTION_GRACE_MS <= expiresAt)
  }

  // A used token with its account.
  predicate Records(st: Auth, d: Id, a: Action) {
    d in st.actions && st.actions[d] == a && a.used.Some? && a.account in st.accounts
  }

  lemma IssueKeepsRecord(st: Auth, account: Id, purpose: Purpose, digest: Id, nonce: Id, expiresAt: int, now: int, d: Id,
                         a: Action)
    requires Records(st, d, a) && digest != d && now - RETENTION_GRACE_MS <= a.expiresAt
    ensures Records(IssueOrFail(st, account, purpose, digest, nonce, expiresAt, now).0, d, a)
  {
  }

  lemma ConfirmationKeepsRecord(st: Auth, op: Op, d: Id, a: Action)
    requires Records(st, d, a) && (op.OpConfirmReset? || op.OpConfirmEmail?)
    ensures Records(Step(st, op), d, a)
  {
  }

  // A step adds accounts and never removes one.
  lemma AccountsStay(st: Auth, op: Op, account: Id)
    requires account in st.accounts
    ensures account in Step(st, op).accounts
  {
    hide Rotate, CreateSession, Register, ConfirmReset, ConfirmEmail, SetStatus, IssueForAccount, IssueForEmail, Logout;
    if LeavesPasswords(op) {
      PasswordsStay(st, op);
    } else if op.OpCreateSession? {
      CreateAccounts(st, op.account, op.expectedHash, op.session, op.installation, op.tokens, op.sessionExpiresAt, op.now);
    } else if op.OpRegister? {
      RegisterResult(st, op.id, op.email, op.name, op.hash, op.session, op.installation, op.tokens, op.sessionExpiresAt, op.now);
    } else if op.OpConfirmReset? {
      ResetSpends(st, op.digest, op.request, op.payload, op.hash, op.now);
      if ConfirmReset(st, op.digest, op.request, op.payload, op.hash, op.now).1.ActionConsumed? {
        ResetResult(st, op.digest, op.request, op.payload, op.hash, op.now);
      }
    }
  }

  lemma StepKeepsRecord(st: Auth, op: Op, d: Id, a: Action)
    requires Records(st, d, a) && Spares(op, d, a.expiresAt)
    ensures Records(Step(st, op), d, a)
  {
    AccountsStay(st, op, a.account);
    hide Rotate, CreateSession, Register, ConfirmReset, ConfirmEmail, SetStatus, IssueOrFail, PruneActions;
    match op
    case OpRegister(id, email, name, hash, session, installation, tokens, sessionExpiresAt, now) =>
      RegisterActions(st, id, email, name, hash, session, installation, tokens, sessionExpiresAt, now);
    case OpCreateSession(account, expectedHash, session, installation, tokens, sessionExpiresAt, now) =>
      CreateActions(st, account, expectedHash, session, installation, tokens, sessionExpiresAt, now);
    case OpRotate(digest, installation, request, tokens, now) => RotateActions(st, digest, installation, request, tokens, now);
    case OpSetStatus(account, status, now) => SetStatusActions(st, account, status, now);
    case OpConfirmReset(digest, request, payload, hash, now) => ConfirmationKeepsRecord(st, op, d, a);
    case OpConfirmEmail(digest, account, request, payload, now) => ConfirmationKeepsRecord(st, op, d, a);
    case OpIssueForAccount(account, purpose, digest, nonce, expiresAt, now) =>
      IssueKeepsRecord(st, account, purpose, digest, nonce, expiresAt, now, d, a);
    case OpIssueForEmail(email, purpose, digest, nonce, expiresAt, now) =>
      var account := ActiveAccount(st.accounts, email);
      if account.Some? {
        IssueKeepsRecord(st, account.value, purpose, digest, nonce, expiresAt, now, d, a);
      } else {
        PruningKeepsRecord(st, now, d, a);
      }
    case _ =>
  }

  lemma PruningKeepsRecord(st: Auth, now: int, d: Id, a: Action)
    requires Records(st, d, a) && now - RETENTION_GRACE_MS <= a.expiresAt
    ensures d in PruneActions(st.actions, now) && PruneActions(st.actions, now)[d] == a
  {
  }

  lemma {:induction false} RunKeepsRecord(st: Auth, ops: seq<Op>, d: Id, a: Action)
    requires Records(st, d, a) && forall i :: 0 <= i < |ops| ==> Spares(ops[i], d, a.expiresAt)
    ensures Records(Run(st, ops), d, a)
  {
    hide Step, Records, Spares;
    if ops != [] {
      var init, last := ops[..|ops| - 1], ops[|ops| - 1];
      assert forall i :: 0 <= i < |init| ==> init[i] == ops[i];
      RunKeepsRecord(st, init, d, a);
      StepKeepsRecord(Run(st, init), last, d, a);
    }
  }

  lemma ResetRecords(st: Auth, d: Id, request: string, payload: Id, hash: Id, now: int)
    requires ConfirmReset(st, d, request, payload, hash, now).1.ActionConsumed?
    ensures d in st.actions
    ensures Records(ConfirmReset(st, d, request, payload, hash, now).0, d,
                    st.actions[d].(used := Some(Use(now, request, payload))))
    ensures st.actions[d].purpose == PasswordReset
  {
    hide ResetPassword;
    var account := st.actions[d].account;
    ResetActions(st, account, d, request, payload, hash, now);
    ResetResult(st, d, request, payload, hash, now);
  }

  // After a reset, whatever runs in between, the same request is told that it was done and any
  // other one that the token is invalid; neither changes anything.
  lemma RepeatedReset(st: Auth, d: Id, request: string, payload: Id, hash: Id, now: int, ops: seq<Op>,
                      request': string, payload': Id, hash': Id, later: int)
    requires ConfirmReset(st, d, request, payload, hash, now).1.ActionConsumed?
    requires d in st.actions && forall i :: 0 <= i < |ops| ==> Spares(ops[i], d, st.actions[d].expiresAt)
    ensures var after := Run(ConfirmReset(st, d, request, payload, hash, now).0, ops);
            ConfirmReset(after, d, request', payload', hash', later)
            == (after, if request' == request && payload' == payload then ActionRepeated(st.actions[d].account) else ActionInvalid)
  {
    hide Run, ConfirmReset, Spares;
    var used := st.actions[d].(used := Some(Use(now, request, payload)));
    var after := Run(ConfirmReset(st, d, request, payload, hash, now).0, ops);
    ResetRecords(st, d, request, payload, hash, now);
    RunKeepsRecord(ConfirmReset(st, d, request, payload, hash, now).0, ops, d, used);
    ResetAnswers(after, d, request', payload', hash', later);
    ResetSpends(after, d, request', payload', hash', later);
  }

  lemma EmailRecords(st: Auth, d: Id, account: Id, request: string, payload: Id, now: int)
    requires ConfirmEmail(st, d, account, request, payload, now).1.ActionConsumed?
    ensures d in st.actions && st.actions[d].account == account && st.actions[d].purpose == EmailVerification
    ensures Records(ConfirmEmail(st, d, account, request, payload, now).0, d,
                    st.actions[d].(used := Some(Use(now, request, payload))))
  {
  }

  lemma RepeatedVerification(st: Auth, d: Id, account: Id, request: string, payload: Id, now: int, ops: seq<Op>,
                             request': string, payload': Id, later: int)
    requires ConfirmEmail(st, d, account, request, payload, now).1.ActionConsumed?
    requires d in st.actions && forall i :: 0 <= i < |ops| ==> Spares(ops[i], d, st.actions[d].expiresAt)
    ensures var after := Run(ConfirmEmail(st, d, account, request, payload, now).0, ops);
            ConfirmEmail(after, d, account, request', payload', later)
            == (after, if request' == request && payload' == payload then ActionRepeated(account) else ActionInvalid)
  {
    hide Run, ConfirmEmail, Spares;
    var used := st.actions[d].(used := Some(Use(now, request, payload)));
    var after := Run(ConfirmEmail(st, d, account, request, payload, now).0, ops);
    EmailRecords(st, d, account, request, payload, now);
    RunKeepsRecord(ConfirmEmail(st, d, account, request, payload, now).0, ops, d, used);
    EmailAnswers(after, d, account, request', payload', later);
    EmailSpends(after, d, account, request', payload', later);
  }

  // ---------- Handing out ----------

  // A digest that a token bears which has not been expired for seven days.
  predicate IsRemembered(st: Auth, d: Id, now: int) {
    d in st.actions && now <= st.actions[d].expiresAt + 604_800_000
  }

  // The rows after a token is handed out: it is added unused, the pending one for the same
  // account and purpose is superseded, and those that expired long ago are forgotten.
  ghost predicate HandsOut(st: Auth, account: Id, purpose: Purpose, digest: Id, nonce: Id, expiresAt: int, now: int, after: Auth) {
    && after == st.(actions := after.actions)
    && (forall x :: x in after.actions <==> x == digest || IsRemembered(st, x, now))
    && (forall x :: x in after.actions ==>
          after.actions[x]
          == if x == digest then Action(nonce, account, purpose, now, expiresAt, None, None)
             else if st.actions[x].account == account && st.actions[x].purpose == purpose && IsUnspent(st, x) then
               st.actions[x].(supersededAt := Some(now))
             else st.actions[x])
  }

  lemma IssueAnswers(st: Auth, account: Id, purpose: Purpose, digest: Id, nonce: Id, expiresAt: int, now: int)
    ensures var r := IssueOrFail(st, account, purpose, digest, nonce, expiresAt, now);
            if IsRemembered(st, digest, now) then r == (st, ActionDigestTaken)
            else r.1 == Issued(account) && HandsOut(st, account, purpose, digest, nonce, expiresAt, now, r.0)
  {
  }

  // An account is handed a token exactly when it is active and, for a verification, its address
  // is not verified yet; otherwise nothing changes.
  lemma AccountIssueAnswers(st: Auth, account: Id, purpose: Purpose, digest: Id, nonce: Id, expiresAt: int, now: int)
    ensures var r := IssueForAccount(st, account, purpose, digest, nonce, expiresAt, now);
            var wanted := HoldsActive(st, account) && (purpose == EmailVerification ==> st.accounts[account].verifiedAt == None);
            if !wanted then r == (st, NothingIssued)
            else if IsRemembered(st, digest, now) then r == (st, ActionDigestTaken)
            else r.1 == Issued(account) && HandsOut(st, account, purpose, digest, nonce, expiresAt, now, r.0)
  {
    hide IssueOrFail, HandsOut, IsRemembered;
    IssueAnswers(st, account, purpose, digest, nonce, expiresAt, now);
  }

  // An address is handed a token exactly when an active account bears it; otherwise old tokens
  // are forgotten and nothing else changes.
  lemma EmailIssueAnswers(st: Auth, email: string, purpose: Purpose, digest: Id, nonce: Id, expiresAt: int, now: int)
    ensures var r := IssueForEmail(st, email, purpose, digest, nonce, expiresAt, now);
            if forall a :: HoldsActive(st, a) ==> st.accounts[a].email != email then
              && r.1 == NothingIssued && r.0 == st.(actions := r.0.actions)
              && (forall x :: x in r.0.actions <==> IsRemembered(st, x, now))
              && (forall x :: x in r.0.actions ==> r.0.actions[x] == st.actions[x])
            else if IsRemembered(st, digest, now) then r == (st, ActionDigestTaken)
            else
              && r.1.Issued? && HoldsActive(st, r.1.account) && st.accounts[r.1.account].email == email
              && HandsOut(st, r.1.account, purpose, digest, nonce, expiresAt, now, r.0)
  {
    hide IssueOrFail, HandsOut;
    var a := ActiveAccount(st.accounts, email);
    if a.Some? {
      IssueAnswers(st, a.value, purpose, digest, nonce, expiresAt, now);
      assert HoldsActive(st, a.value);
    }
  }
}
