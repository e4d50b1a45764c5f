/** The operations of the account database as a state machine on values. An operation that
    raises leaves everything as it was, since its transaction is rolled back. */
module AuthMachine {
  import opened Basics
  import opened AuthTables

  // A new pair of credentials, as the caller prepares it.
  datatype Tokens = Tokens(access: Id, accessNonce: Id, accessExpiresAt: int,
                           refresh: Id, refreshNonce: Id, refreshExpiresAt: int)

  // What a refresh hands out.
  datatype Pair = Pair(session: Id, sessionExpiresAt: int, accessNonce: Id, refreshNonce: Id,
                       accessExpiresAt: int, refreshExpiresAt: int)

  datatype RefreshOutcome = UnknownToken | WrongInstallation | RefreshExpired | Replayed | Unavailable
                          | Repeated(pair: Pair) | Rotated(pair: Pair) | ReplacementMissing | DigestTaken

  datatype AccessOutcome = Authenticated(account: Id, session: Id) | AccessExpired | AccessInvalid

  datatype SessionOutcome = SessionOpened | CredentialsChanged | IdTaken

  datatype AccountOutcome = AccountCreated | DuplicateEmail | AccountIdTaken

  datatype IssueOutcome = Issued(account: Id) | NothingIssued | ActionDigestTaken

  datatype ActionOutcome = ActionConsumed(account: Id) | ActionRepeated(account: Id) | ActionInvalid
                         | ActionExpired | ActionUnavailable

  // ---------- Inserting rows ----------

  predicate EmailTaken(accounts: map<Id, Account>, email: string) {
    exists a :: a in accounts && accounts[a].email == email
  }

  // _insert_account
  function InsertAccount(st: Auth, id: Id, email: string, name: string, hash: Id, required: bool,
                         now: int): Option<Auth> {
    if id in st.accounts || EmailTaken(st.accounts, email) then None
    else Some(st.(accounts := st.accounts[id := Account(email, name, hash, Active, None, required, now, now)]))
  }

  // _insert_session
  function InsertSession(st: Auth, id: Id, account: Id, installation: string, expiresAt: int, now: int): Option<Auth> {
    if id in st.sessions then None
    else Some(st.(sessions := st.sessions[id := Session(account, installation, now, now, expiresAt, None)]))
  }

  // _insert_tokens
  function InsertTokens(st: Auth, session: Id, tok: Tokens, now: int): Option<Auth> {
    if tok.access in st.access || tok.refresh in st.refresh then None
    else Some(st.(
      access := st.access[tok.access := Access(tok.accessNonce, session, now, tok.accessExpiresAt, st.nextRow)],
      refresh := st.refresh[tok.refresh := Refresh(tok.refreshNonce, session, now, tok.refreshExpiresAt, st.nextRow, None)],
      nextRow := st.nextRow + 1))
  }

  function InsertLogin(st: Auth, id: Id, account: Id, installation: string, tok: Tokens, expiresAt: int,
                       now: int): Option<Auth> {
    var inserted := InsertSession(st, id, account, installation, expiresAt, now);
    if inserted.None? then None else InsertTokens(inserted.value, id, tok, now)
  }

  // ---------- Accounts ----------

  // create_account
  function CreateAccount(st: Auth, id: Id, email: string, name: string, hash: Id, now: int): (Auth, AccountOutcome) {
    match InsertAccount(st, id, email, name, hash, false, now)
    case None => (st, DuplicateEmail)
    case Some(next) => (next, AccountCreated)
  }

  // create_account_with_session
  function Register(st: Auth, id: Id, email: string, name: string, hash: Id, session: Id, installation: string,
                    tok: Tokens, sessionExpiresAt: int, now: int): (Auth, AccountOutcome) {
    var failed := (st, if EmailTaken(st.accounts, email) then DuplicateEmail else AccountIdTaken);
    match InsertAccount(st, id, email, name, hash, true, now)
    case None => failed
    case Some(next) =>
      match InsertLogin(PruneExpired(PruneStale(next, now), now), session, id, installation, tok, sessionExpiresAt, now)
      case None => failed
      case Some(done) => (done, AccountCreated)
  }

  // update_password_hash
  function UpdateHash(st: Auth, account: Id, encoded: Id, expected: Option<Id>, now: int): (Auth, bool) {
    if account !in st.accounts then (st, expected.None?)
    else
      var a := st.accounts[account];
      if expected.Some? && (a.passwordHash != expected.value || !a.status.Active?) then (st, false)
      else (st.(accounts := st.accounts[account := a.(passwordHash := encoded, updatedAt := now)]), true)
  }

  // set_account_status
  function SetStatus(st: Auth, account: Id, status: Status, now: int): Auth {
    if account !in st.accounts then
      if status.Active? then st else st.(sessions := Revoke(st.sessions, OpenOf(st.sessions, account), now))
    else
      var next := st.(accounts := st.accounts[account := st.accounts[account].(status := status, updatedAt := now)]);
      if status.Active? then next else next.(sessions := Revoke(st.sessions, OpenOf(st.sessions, account), now))
  }

  // ---------- Sessions ----------

  // create_session
  function CreateSession(st: Auth, account: Id, expected: Id, session: Id, installation: string, tok: Tokens,
                         sessionExpiresAt: int, now: int): (Auth, SessionOutcome) {
    if account !in st.accounts || !st.accounts[account].status.Active?
       || st.accounts[account].passwordHash != expected then (st, CredentialsChanged)
    else
      var prepared := PrepareSession(PruneExpired(PruneStale(st, now), now), account, installation, now);
      match InsertLogin(prepared, session, account, installation, tok, sessionExpiresAt, now)
      case None => (st, IdTaken)
      case Some(done) => (done, SessionOpened)
  }

  // authenticate_access
  function Authenticate(st: Auth, digest: Id, now: int): AccessOutcome {
    if digest !in st.access || st.access[digest].session !in st.sessions then AccessInvalid
    else
      var s := st.sessions[st.access[digest].session];
      if s.account !in st.accounts || s.revokedAt.Some? || !st.accounts[s.account].status.Active? then AccessInvalid
      else if st.access[digest].expiresAt <= now || s.expiresAt <= now then AccessExpired
      else Authenticated(s.account, st.access[digest].session)
  }

  // revoke_session_by_access
  function Logout(st: Auth, digest: Id, now: int): Auth {
    if digest !in st.access then st
    else st.(sessions := Revoke(st.sessions, {st.access[digest].session}, now))
  }

  predicate IsJoined(st: Auth, digest: Id) {
    digest in st.refresh && st.refresh[digest].session in st.sessions
    && st.sessions[st.refresh[digest].session].account in st.accounts
  }

  // A consumed token presented again: the same request gets the same pair, any other use of it
  // revokes the session.
  function Retry(st: Auth, digest: Id, request: string, now: int): (Auth, RefreshOutcome)
    requires IsJoined(st, digest) && st.refresh[digest].consumed.Some?
  {
    var id := st.refresh[digest].session;
    var s, used := st.sessions[id], st.refresh[digest].consumed.value;
    var replayed := (st.(sessions := Revoke(st.sessions, {id}, now)), Replayed);
    if used.requestId != request then replayed
    else if s.revokedAt.Some? || !st.accounts[s.account].status.Active? || s.expiresAt <= now then (st, RefreshExpired)
    else if used.access !in st.access || used.refresh !in st.refresh then (st, ReplacementMissing)
    else
      var a, r := st.access[used.access], st.refresh[used.refresh];
      if r.consumed.Some? then replayed
      else if r.expiresAt <= now then (st, RefreshExpired)
      else (st, Repeated(Pair(id, s.expiresAt, a.nonce, r.nonce, a.expiresAt, r.expiresAt)))
  }

  function Capped(tok: Tokens, limit: int): Tokens {
    tok.(accessExpiresAt := Min(tok.accessExpiresAt, limit), refreshExpiresAt := Min(tok.refreshExpiresAt, limit))
  }

  function Consume(st: Auth, digest: Id, use: Consumption): Auth
    requires digest in st.refresh
  {
    st.(refresh := st.refresh[digest := st.refresh[digest].(consumed := Some(use))])
  }

  function Seen(st: Auth, session: Id, now: int): Auth {
    if session !in st.sessions then st
    else st.(sessions := st.sessions[session := st.sessions[session].(lastSeenAt := now)])
  }

  // A live token is consumed for a new pair of the same session.
  function Renew(st: Auth, digest: Id, request: string, tok: Tokens, now: int): (Auth, RefreshOutcome)
    requires IsJoined(st, digest)
  {
    var id := st.refresh[digest].session;
    var capped := Capped(tok, st.sessions[id].expiresAt);
    match InsertTokens(Consume(st, digest, Consumption(now, request, tok.refresh, tok.access)), id, capped, now)
    case None => (st, DigestTaken)
    case Some(added) =>
      (Seen(PruneExpired(PruneFamily(added, id, now), now), id, now),
       Rotated(Pair(id, st.sessions[id].expiresAt, tok.accessNonce, tok.refreshNonce,
                    capped.accessExpiresAt, capped.refreshExpiresAt)))
  }

  // rotate_refresh
  function Rotate(st: Auth, digest: Id, installation: string, request: string, tok: Tokens, now: int)
    : (Auth, RefreshOutcome)
  {
    var pruned := PruneStale(st, now);
    if !IsJoined(pruned, digest) then (PruneExpired(pruned, now), UnknownToken)
    else
      var t := pruned.refresh[digest];
      var s := pruned.sessions[t.session];
      if s.installation != installation then (pruned, WrongInstallation)
      else if t.consumed.Some? then
        var (next, outcome) := Retry(pruned, digest, request, now);
        if outcome.ReplacementMissing? then (st, outcome) else (next, outcome)
      else if s.revokedAt.Some? || t.expiresAt <= now || s.expiresAt <= now then
        (PruneExpired(PruneFamily(pruned, t.session, now), now), RefreshExpired)
      else if !pruned.accounts[s.account].status.Active? then (pruned, Unavailable)
      else
        var (next, outcome) := Renew(pruned, digest, request, tok, now);
        if outcome.DigestTaken? then (st, outcome) else (next, outcome)
  }

  // ---------- Action tokens ----------

  // _prune
  function PruneActions(actions: map<Id, Action>, now: int): map<Id, Action> {
    map d | d in actions && actions[d].expiresAt >= now - RETENTION_GRACE_MS :: actions[d]
  }

  predicate IsPending(a: Action) {
    a.used.None? && a.supersededAt.None?
  }

  function Supersede(actions: map<Id, Action>, account: Id, purpose: Purpose, except: set<Id>,
                     now: int): map<Id, Action> {
    map d | d in actions ::
      if actions[d].account == account && actions[d].purpose == purpose && IsPending(actions[d]) && d !in except
      then actions[d].(supersededAt := Some(now))
      else actions[d]
  }

  // _issue
  function Issue(st: Auth, account: Id, purpose: Purpose, digest: Id, nonce: Id, expiresAt: int, now: int): Option<Auth> {
    var actions := Supersede(PruneActions(st.actions, now), account, purpose, {}, now);
    if digest in actions then None
    else Some(st.(actions := actions[digest := Action(nonce, account, purpose, now, expiresAt, None, None)]))
  }

  function IssueOrFail(st: Auth, account: Id, purpose: Purpose, digest: Id, nonce: Id, expiresAt: int,
                       now: int): (Auth, IssueOutcome) {
    match Issue(st, account, purpose, digest, nonce, expiresAt, now)
    case None => (st, ActionDigestTaken)
    case Some(next) => (next, Issued(account))
  }

  // issue_for_account
  function IssueForAccount(st: Auth, account: Id, purpose: Purpose, digest: Id, nonce: Id, expiresAt: int,
                           now: int): (Auth, IssueOutcome) {
    if account !in st.accounts || !st.accounts[account].status.Active? then (st, NothingIssued)
    else if purpose.EmailVerification? && st.accounts[account].verifiedAt.Some? then (st, NothingIssued)
    else IssueOrFail(st, account, purpose, digest, nonce, expiresAt, now)
  }

  // The active account of an email, if there is one.
  ghost function ActiveAccount(accounts: map<Id, Account>, email: string): Option<Id> {
    if exists a :: a in accounts && accounts[a].email == email && accounts[a].status.Active? then
      var a :| a in accounts && accounts[a].email == email && accounts[a].status.Active?;
      Some(a)
    else None
  }

  // issue_for_email
  ghost function IssueForEmail(st: Auth, email: string, purpose: Purpose, digest: Id, nonce: Id, expiresAt: int,
                               now: int): (Auth, IssueOutcome) {
    match ActiveAccount(st.accounts, email)
    case None => (st.(actions := PruneActions(st.actions, now)), NothingIssued)
    case Some(account) => IssueOrFail(st, account, purpose, digest, nonce, expiresAt, now)
  }

  datatype TokenState = TokenInvalid | TokenRepeated | TokenExpired | TokenUnavailable | TokenActive

  // _action and _state
  function StateOf(st: Auth, digest: Id, purpose: Purpose, account: Option<Id>, request: string, payload: Id,
                   now: int): TokenState {
    if digest !in st.actions || st.actions[digest].purpose != purpose || st.actions[digest].account !in st.accounts
       || (account.Some? && st.actions[digest].account != account.value) then TokenInvalid
    else
      var t := st.actions[digest];
      if t.used.Some? then
        if t.used.value.requestId == request && t.used.value.payload == payload then TokenRepeated else TokenInvalid
      else if t.supersededAt.Some? then TokenInvalid
      else if t.expiresAt <= now then TokenExpired
      else if !st.accounts[t.account].status.Active? then TokenUnavailable
      else TokenActive
  }

  function Refusal(state: TokenState, account: Id): ActionOutcome {
    match state
    case TokenRepeated => ActionRepeated(account)
    case TokenExpired => ActionExpired
    case TokenUnavailable => ActionUnavailable
    case _ => ActionInvalid
  }

  // _mark_consumed
  function MarkUsed(actions: map<Id, Action>, digest: Id, use: Use): map<Id, Action> {
    if digest !in actions || actions[digest].used.Some? then actions
    else actions[digest := actions[digest].(used := Some(use))]
  }

  function ActionAccount(st: Auth, digest: Id): Id {
    if digest in st.actions then st.actions[digest].account else 0
  }

  // confirm_email
  function ConfirmEmail(st: Auth, digest: Id, account: Id, request: string, payload: Id,
                        now: int): (Auth, ActionOutcome) {
    var state := StateOf(st, digest, EmailVerification, Some(account), request, payload, now);
    if !state.TokenActive? then (st, Refusal(state, account))
    else
      var a := st.accounts[account];
      (st.(accounts := st.accounts[account := a.(verifiedAt := if a.verifiedAt.Some? then a.verifiedAt else Some(now),
                                                 updatedAt := now)],
           actions := MarkUsed(st.actions, digest, Use(now, request, payload))),
       ActionConsumed(account))
  }

  // DELETE FROM … WHERE session_id IN (SELECT id FROM auth_sessions WHERE account_id=?)
  function SessionsOf(sessions: map<Id, Session>, account: Id): set<Id> {
    set s | s in sessions && sessions[s].account == account
  }

  // confirm_password_reset up to its last statement
  function ResetPassword(st: Auth, account: Id, digest: Id, request: string, payload: Id, hash: Id, now: int): Auth
    requires account in st.accounts
  {
    var accounts := st.accounts[account := st.accounts[account].(passwordHash := hash, updatedAt := now)];
    var revoked := st.(accounts := accounts, sessions := Revoke(st.sessions, OpenOf(st.sessions, account), now));
    var dropped := DropTokens(revoked, SessionsOf(st.sessions, account));
    dropped.(actions := MarkUsed(st.actions, digest, Use(now, request, payload)))
  }

  // confirm_password_reset
  function ConfirmReset(st: Auth, digest: Id, request: string, payload: Id, hash: Id, now: int): (Auth, ActionOutcome) {
    var state := StateOf(st, digest, PasswordReset, None, request, payload, now);
    var account := ActionAccount(st, digest);
    if !state.TokenActive? then (st, Refusal(state, account))
    else
      var reset := ResetPassword(st, account, digest, request, payload, hash, now);
      (reset.(actions := Supersede(reset.actions, account, PasswordReset, {digest}, now)), ActionConsumed(account))
  }

  // ---------- Steps and runs ----------

  datatype Op =
    | OpCreateAccount(id: Id, email: string, name: string, hash: Id, now: int)
    | OpRegister(id: Id, email: string, name: string, hash: Id, session: Id, installation: string, tokens: Tokens,
                 sessionExpiresAt: int, now: int)
    | OpUpdateHash(account: Id, encoded: Id, expected: Option<Id>, now: int)
    | OpSetStatus(account: Id, status: Status, now: int)
    | OpCreateSession(account: Id, expectedHash: Id, session: Id, installation: string, tokens: Tokens,
                      sessionExpiresAt: int, now: int)
    | OpLogout(digest: Id, now: int)
    | OpRotate(digest: Id, installation: string, request: string, tokens: Tokens, now: int)
    | OpIssueForAccount(account: Id, purpose: Purpose, digest: Id, nonce: Id, expiresAt: int, now: int)
    | OpIssueForEmail(email: string, purpose: Purpose, digest: Id, nonce: Id, expiresAt: int, now: int)
    | OpConfirmEmail(digest: Id, account: Id, request: string, payload: Id, now: int)
    | OpConfirmReset(digest: Id, request: string, payload: Id, hash: Id, now: int)

  ghost function Step(st: Auth, op: Op): Auth {
    match op
    case OpCreateAccount(id, email, name, hash, now) => CreateAccount(st, id, email, name, hash, now).0
    case OpRegister(id, email, name, hash, session, installation, tokens, sessionExpiresAt, now) =>
      Register(st, id, email, name, hash, session, installation, tokens, sessionExpiresAt, now).0
    case OpUpdateHash(account, encoded, expected, now) => UpdateHash(st, account, encoded, expected, now).0
    case OpSetStatus(account, status, now) => SetStatus(st, account, status, now)
    case OpCreateSession(account, expectedHash, session, installation, tokens, sessionExpiresAt, now) =>
      CreateSession(st, account, expectedHash, session, installation, tokens, sessionExpiresAt, now).0
    case OpLogout(digest, now) => Logout(st, digest, now)
    case OpRotate(digest, installation, request, tokens, now) => Rotate(st, digest, installation, request, tokens, now).0
    case OpIssueForAccount(account, purpose, digest, nonce, expiresAt, now) =>
      IssueForAccount(st, account, purpose, digest, nonce, expiresAt, now).0
    case OpIssueForEmail(email, purpose, digest, nonce, expiresAt, now) =>
      IssueForEmail(st, email, purpose, digest, nonce, expiresAt, now).0
    case OpConfirmEmail(digest, account, request, payload, now) => ConfirmEmail(st, digest, account, request, payload, now).0
    case OpConfirmReset(digest, request, payload, hash, now) => ConfirmReset(st, digest, request, payload, hash, now).0
  }

  ghost function Run(st: Auth, ops: seq<Op>): Auth {
    if ops == [] then st else Step(Run(st, ops[..|ops| - 1]), ops[|ops| - 1])
  }

  const EMPTY: Auth := Auth(map[], map[], map[], map[], map[], 0)
}
