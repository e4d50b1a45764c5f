/** Logins interleaved with password resets: a login reads the hash, verifies the password, may
    store a better hash, and opens a session, and anything may commit between these steps. */
module LoginReset {
  import opened Basics
  import opened AuthTables
  import opened AuthMachine
  import opened AuthInvariant
  import opened AuthOperations
  import opened RefreshRetry
  import opened ActionTokens
  import opened AccountOutcomes

  // ---------- The steps of a login ----------

  // A login between its steps. The epoch is how often the account had been reset when the hash
  // was read; the code does not know it.
  datatype Login = Login(stage: Stage, account: Id, hash: Id, password: string, active: bool, epoch: nat)

  datatype Stage = Read | Verified | Ended

  const NO_LOGIN: Login := Login(Ended, 0, 0, "", false, 0)

  // What a session was opened with.
  datatype Proof = Proof(account: Id, password: string, epoch: nat)

  // The account database, the logins in progress, and what only an observer knows: every hash
  // ever made, the resets of each account, and what each session was opened with.
  datatype World = World(auth: Auth, logins: map<nat, Login>, hashes: set<Id>, epochs: map<Id, nat>,
                         proofs: map<Id, Proof>)

  datatype Event =
    | Begin(login: nat, email: string, password: string)
    | Verify(login: nat)
    | Rehash(login: nat, hash: Id, now: int)
    | Open(login: nat, session: Id, installation: string, tokens: Tokens, sessionExpiresAt: int, now: int)
    | Repository(op: Op)

  function EpochOf(w: World, account: Id): nat {
    if account in w.epochs then w.epochs[account] else 0
  }

  ghost function AccountWithEmail(accounts: map<Id, Account>, email: string): Option<Id> {
    if exists a :: a in accounts && accounts[a].email == email then
      var a :| a in accounts && accounts[a].email == email;
      Some(a)
    else None
  }

  // account_with_password
  ghost function BeginLogin(w: World, t: nat, email: string, password: string): World {
    match AccountWithEmail(w.auth.accounts, email)
    case None => w.(logins := w.logins[t := NO_LOGIN])
    case Some(a) =>
      var account := w.auth.accounts[a];
      w.(logins := w.logins[t := Login(Read, a, account.passwordHash, password, account.status.Active?, EpochOf(w, a))])
  }

  // The password is checked against the hash that was read.
  function VerifyLogin(w: World, secret: Id -> string, t: nat): World {
    if t !in w.logins || !w.logins[t].stage.Read? then w
    else
      var l := w.logins[t];
      w.(logins := w.logins[t := l.(stage := if secret(l.hash) == l.password && l.active then Verified else Ended)])
  }

  // A better hash is stored only over the one that was verified.
  function RehashLogin(w: World, t: nat, hash: Id, now: int): World {
    if t !in w.logins || !w.logins[t].stage.Verified? then w
    else
      var l := w.logins[t];
      var (auth, updated) := UpdateHash(w.auth, l.account, hash, Some(l.hash), now);
      w.(auth := auth, hashes := w.hashes + {hash},
         logins := w.logins[t := if updated then l.(hash := hash) else l.(stage := Ended)])
  }

  // _new_session
  function OpenLogin(w: World, t: nat, session: Id, installation: string, tok: Tokens, sessionExpiresAt: int,
                     now: int): World {
    if t !in w.logins || !w.logins[t].stage.Verified? then w
    else
      var l := w.logins[t];
      var (auth, outcome) := CreateSession(w.auth, l.account, l.hash, session, installation, tok, sessionExpiresAt, now);
      w.(auth := auth, logins := w.logins[t := l.(stage := Ended)],
         proofs := if outcome.SessionOpened? then w.proofs[session := Proof(l.account, l.password, l.epoch)] else w.proofs)
  }

  function AfterReset(w: World, auth: Auth, outcome: ActionOutcome, hash: Id): World {
    w.(auth := auth, hashes := w.hashes + {hash},
       epochs := if outcome.ActionConsumed? then w.epochs[outcome.account := EpochOf(w, outcome.account) + 1] else w.epochs)
  }

  // The other operations; a consumed reset starts a new epoch, a registration the first one.
  ghost function Operate(w: World, secret: Id -> string, op: Op): World {
    var auth := Step(w.auth, op);
    match op
    case OpRegister(id, email, name, hash, session, installation, tokens, sessionExpiresAt, now) =>
      var created := Register(w.auth, id, email, name, hash, session, installation, tokens, sessionExpiresAt,
                              now).1.AccountCreated?;
      w.(auth := auth, hashes := w.hashes + {hash},
         proofs := if created then w.proofs[session := Proof(id, secret(hash), EpochOf(w, id))] else w.proofs)
    case OpCreateAccount(_, _, _, hash, _) => w.(auth := auth, hashes := w.hashes + {hash})
    case OpConfirmReset(digest, request, payload, hash, now) =>
      var (after, outcome) := ConfirmReset(w.auth, digest, request, payload, hash, now);
      AfterReset(w, after, outcome, hash)
    case _ => w.(auth := auth)
  }

  ghost function Happen(w: World, secret: Id -> string, e: Event): World {
    match e
    case Begin(t, email, password) => BeginLogin(w, t, email, password)
    case Verify(t) => VerifyLogin(w, secret, t)
    case Rehash(t, hash, now) => RehashLogin(w, t, hash, now)
    case Open(t, session, installation, tokens, sessionExpiresAt, now) =>
      OpenLogin(w, t, session, installation, tokens, sessionExpiresAt, now)
    case Repository(op) => Operate(w, secret, op)
  }

  // New hashes are fresh, a rehash hashes the verified password, and sessions are opened and
  // hashes replaced only through the steps above.
  predicate Allowed(w: World, secret: Id -> string, e: Event) {
    match e
    case Rehash(t, hash, _) =>
      hash !in w.hashes && (t in w.logins && w.logins[t].stage.Verified? ==> secret(hash) == w.logins[t].password)
    case Repository(op) =>
      && !op.OpCreateSession? && !op.OpUpdateHash?
      && (op.OpRegister? || op.OpCreateAccount? || op.OpConfirmReset? ==> op.hash !in w.hashes)
    case _ => true
  }

  ghost function HappenAll(w: World, secret: Id -> string, es: seq<Event>): World {
    if es == [] then w else Happen(HappenAll(w, secret, es[..|es| - 1]), secret, es[|es| - 1])
  }

  ghost predicate AllAllowed(w: World, secret: Id -> string, es: seq<Event>) {
    es == [] || (AllAllowed(w, secret, es[..|es| - 1])
                 && Allowed(HappenAll(w, secret, es[..|es| - 1]), secret, es[|es| - 1]))
  }

  // ---------- The invariant ----------

  // A login that still holds the stored hash read it in the current epoch.
  predicate LoginIsCurrent(w: World, secret: Id -> string, l: Login) {
    l.stage.Ended? ||
    (&& l.hash in w.hashes
     && (l.stage.Verified? ==> secret(l.hash) == l.password)
     && l.account in w.auth.accounts
     && (w.auth.accounts[l.account].passwordHash == l.hash ==> l.epoch == EpochOf(w, l.account)))
  }

  predicate SessionIsProven(w: World, secret: Id -> string, s: Id)
    requires s in w.auth.sessions
  {
    var account := w.auth.sessions[s].account;
    && account in w.auth.accounts
    && s in w.proofs && w.proofs[s] == Proof(account, secret(w.auth.accounts[account].passwordHash), EpochOf(w, account))
  }

  ghost predicate HashesAreKnown(w: World) {
    forall a :: a in w.auth.accounts ==> w.auth.accounts[a].passwordHash in w.hashes
  }

  ghost predicate LoginsAreCurrent(w: World, secret: Id -> string) {
    forall t :: t in w.logins ==> LoginIsCurrent(w, secret, w.logins[t])
  }

  ghost predicate SessionsAreProven(w: World, secret: Id -> string) {
    forall s :: s in w.auth.sessions && w.auth.sessions[s].revokedAt.None? ==> SessionIsProven(w, secret, s)
  }

  ghost predicate Proven(w: World, secret: Id -> string) {
    Sound(w.auth) && HashesAreKnown(w) && LoginsAreCurrent(w, secret) && SessionsAreProven(w, secret)
  }

  // ---------- What the operations do to accounts and sessions ----------

  // Open sessions were open before, and no account's password changed.
  ghost predicate Harmless(before: Auth, after: Auth) {
    && (forall a :: a in before.accounts ==>
          a in after.accounts && after.accounts[a].passwordHash == before.accounts[a].passwordHash)
    && (forall a :: a in after.accounts ==> a in before.accounts)
    && forall s :: s in after.sessions && after.sessions[s].revokedAt.None? ==>
         s in before.sessions && Continues(before.sessions[s], after.sessions[s])
  }

  lemma HarmlessKeepsProven(w: World, secret: Id -> string, after: World)
    requires Proven(w, secret) && Sound(after.auth) && Harmless(w.auth, after.auth)
    requires after == w.(auth := after.auth)
    ensures Proven(after, secret)
  {
    hide Sound;
    forall t | t in after.logins ensures LoginIsCurrent(after, secret, after.logins[t]) {
      assert LoginIsCurrent(w, secret, w.logins[t]);
    }
    forall s | s in after.auth.sessions && after.auth.sessions[s].revokedAt.None?
      ensures SessionIsProven(after, secret, s)
    {
      assert SessionIsProven(w, secret, s);
    }
  }

  // Every other operation of the repository is harmless.
  lemma OthersAreHarmless(st: Auth, op: Op)
    requires Sound(st) && LeavesPasswords(op)
    ensures Harmless(st, Step(st, op))
  {
    hide Sound, Step, Continues;
    PasswordsStay(st, op);
    forall s | s in Step(st, op).sessions
      ensures s in st.sessions && Continues(st.sessions[s], Step(st, op).sessions[s])
    {
      StepSessions(st, op, s);
    }
  }

  // ---------- Every event keeps the invariant ----------

  lemma LoginKeepsProven(w: World, secret: Id -> string, t: nat, l: Login)
    requires Proven(w, secret) && LoginIsCurrent(w, secret, l)
    ensures Proven(w.(logins := w.logins[t := l]), secret)
  {
    hide Sound;
    var after := w.(logins := w.logins[t := l]);
    forall u | u in after.logins ensures LoginIsCurrent(after, secret, after.logins[u]) {
      assert u != t ==> LoginIsCurrent(w, secret, w.logins[u]);
    }
    forall s | s in after.auth.sessions && after.auth.sessions[s].revokedAt.None?
      ensures SessionIsProven(after, secret, s)
    {
      assert SessionIsProven(w, secret, s);
    }
  }

  lemma BeginKeeps(w: World, secret: Id -> string, t: nat, email: string, password: string)
    requires Proven(w, secret)
    ensures Proven(BeginLogin(w, t, email, password), secret)
  {
    var a := AccountWithEmail(w.auth.accounts, email);
    assert a.Some? ==> a.value in w.auth.accounts && w.auth.accounts[a.value].passwordHash in w.hashes by {
      hide Sound, LoginsAreCurrent, SessionsAreProven;
    }
    hide Proven;
    LoginKeepsProven(w, secret, t, BeginLogin(w, t, email, password).logins[t]);
  }

  lemma VerifyKeeps(w: World, secret: Id -> string, t: nat)
    requires Proven(w, secret)
    ensures Proven(VerifyLogin(w, secret, t), secret)
  {
    hide Sound, SessionsAreProven;
    if t in w.logins && w.logins[t].stage.Read? {
      assert LoginIsCurrent(w, secret, w.logins[t]);
      LoginKeepsProven(w, secret, t, VerifyLogin(w, secret, t).logins[t]);
    }
  }

  // A fresh hash of the same password over the current one.
  lemma NewHashKeeps(w: World, secret: Id -> string, account: Id, a: Account)
    requires Proven(w, secret) && account in w.auth.accounts && a.passwordHash !in w.hashes
    requires secret(a.passwordHash) == secret(w.auth.accounts[account].passwordHash)
    requires w.auth.accounts[account].status.Active? ==> a.status.Active?
    ensures Proven(w.(auth := w.auth.(accounts := w.auth.accounts[account := a]), hashes := w.hashes + {a.passwordHash}), secret)
  {
    UpdatedAccountIsSound(w.auth, account, a);
    hide Sound;
    var after := w.(auth := w.auth.(accounts := w.auth.accounts[account := a]), hashes := w.hashes + {a.passwordHash});
    forall t | t in after.logins ensures LoginIsCurrent(after, secret, after.logins[t]) {
      assert LoginIsCurrent(w, secret, w.logins[t]);
    }
    forall s | s in after.auth.sessions && after.auth.sessions[s].revokedAt.None?
      ensures SessionIsProven(after, secret, s)
    {
      assert SessionIsProven(w, secret, s);
    }
  }

  lemma MoreHashesKeep(w: World, secret: Id -> string, hash: Id)
    requires Proven(w, secret)
    ensures Proven(w.(hashes := w.hashes + {hash}), secret)
  {
    hide Sound;
    var after := w.(hashes := w.hashes + {hash});
    forall t | t in after.logins ensures LoginIsCurrent(after, secret, after.logins[t]) {
      assert LoginIsCurrent(w, secret, w.logins[t]);
    }
    forall s | s in after.auth.sessions && after.auth.sessions[s].revokedAt.None?
      ensures SessionIsProven(after, secret, s)
    {
      assert SessionIsProven(w, secret, s);
    }
  }

  lemma RehashKeeps(w: World, secret: Id -> string, t: nat, hash: Id, now: int)
    requires Proven(w, secret) && Allowed(w, secret, Rehash(t, hash, now))
    ensures Proven(RehashLogin(w, t, hash, now), secret)
  {
    if t in w.logins && w.logins[t].stage.Verified? {
      var l := w.logins[t];
      assert LoginIsCurrent(w, secret, l);
      hide Proven;
      var r := UpdateHash(w.auth, l.account, hash, Some(l.hash), now);
      var mid := w.(auth := r.0, hashes := w.hashes + {hash});
      if r.1 {
        NewHashKeeps(w, secret, l.account, w.auth.accounts[l.account].(passwordHash := hash, updatedAt := now));
        LoginKeepsProven(mid, secret, t, l.(hash := hash));
      } else {
        MoreHashesKeep(w, secret, hash);
        LoginKeepsProven(mid, secret, t, l.(stage := Ended));
      }
    }
  }

  // A session opened with the stored hash is proven by the login that holds it.
  lemma OpenedIsProven(w: World, secret: Id -> string, auth: Auth, session: Id, l: Login, after: World)
    requires Proven(w, secret) && Sound(auth) && auth.accounts == w.auth.accounts
    requires l.stage.Verified? && LoginIsCurrent(w, secret, l) && w.auth.accounts[l.account].passwordHash == l.hash
    requires session in auth.sessions && auth.sessions[session].account == l.account
    requires forall s :: s in auth.sessions && s != session ==>
               s in w.auth.sessions && Continues(w.auth.sessions[s], auth.sessions[s])
    requires after == w.(auth := auth, proofs := w.proofs[session := Proof(l.account, l.password, l.epoch)])
    ensures Proven(after, secret)
  {
    hide Sound;
    forall u | u in after.logins ensures LoginIsCurrent(after, secret, after.logins[u]) {
      assert LoginIsCurrent(w, secret, w.logins[u]);
    }
    forall s | s in auth.sessions && auth.sessions[s].revokedAt.None? ensures SessionIsProven(after, secret, s) {
      assert s != session ==> SessionIsProven(w, secret, s);
    }
  }

  lemma OpenKeeps(w: World, secret: Id -> string, t: nat, session: Id, installation: string, tok: Tokens,
                  sessionExpiresAt: int, now: int)
    requires Proven(w, secret)
    ensures Proven(OpenLogin(w, t, session, installation, tok, sessionExpiresAt, now), secret)
  {
    if t in w.logins && w.logins[t].stage.Verified? {
      var l := w.logins[t];
      assert LoginIsCurrent(w, secret, l) && Sound(w.auth);
      hide Proven, Sound, CreateSession, LoginIsCurrent;
      var r := CreateSession(w.auth, l.account, l.hash, session, installation, tok, sessionExpiresAt, now);
      CreateAccounts(w.auth, l.account, l.hash, session, installation, tok, sessionExpiresAt, now);
      CreateSessionIsSound(w.auth, l.account, l.hash, session, installation, tok, sessionExpiresAt, now);
      var mid := w.(auth := r.0,
                    proofs := if r.1.SessionOpened? then w.proofs[session := Proof(l.account, l.password, l.epoch)] else w.proofs);
      if r.1.SessionOpened? {
        forall s | s in r.0.sessions && s != session
          ensures s in w.auth.sessions && Continues(w.auth.sessions[s], r.0.sessions[s])
        {
          CreateSessionSessions(w.auth, l.account, l.hash, session, installation, tok, sessionExpiresAt, now, s);
        }
        OpenedIsProven(w, secret, r.0, session, l, mid);
      }
      EndedIsCurrent(mid, secret, l);
      LoginKeepsProven(mid, secret, t, l.(stage := Ended));
    }
  }

  lemma EndedIsCurrent(w: World, secret: Id -> string, l: Login)
    ensures LoginIsCurrent(w, secret, l.(stage := Ended))
  {
  }

  // ---------- Accounts come and change ----------

  lemma NewAccountKeeps(w: World, secret: Id -> string, id: Id, a: Account)
    requires Proven(w, secret) && id !in w.auth.accounts
    ensures Proven(w.(auth := w.auth.(accounts := w.auth.accounts[id := a]), hashes := w.hashes + {a.passwordHash}),
                   secret)
  {
    MoreAccountsIsSound(w.auth, id, a);
    hide Sound;
    var after := w.(auth := w.auth.(accounts := w.auth.accounts[id := a]), hashes := w.hashes + {a.passwordHash});
    forall t | t in after.logins ensures LoginIsCurrent(after, secret, after.logins[t]) {
      assert LoginIsCurrent(w, secret, w.logins[t]);
    }
    forall s | s in after.auth.sessions && after.auth.sessions[s].revokedAt.None?
      ensures SessionIsProven(after, secret, s)
    {
      assert SessionIsProven(w, secret, s);
    }
  }

  // A session opened with the account itself is proven by the password of the registration.
  lemma RegisteredIsProven(w: World, secret: Id -> string, auth: Auth, id: Id, a: Account, session: Id, after: World)
    requires Proven(w, secret) && Sound(auth) && id !in w.auth.accounts
    requires auth.accounts == w.auth.accounts[id := a]
    requires session in auth.sessions && auth.sessions[session].account == id
    requires forall s :: s in auth.sessions && s != session ==>
               s in w.auth.sessions && Continues(w.auth.sessions[s], auth.sessions[s])
    requires after == w.(auth := auth, hashes := w.hashes + {a.passwordHash},
                         proofs := w.proofs[session := Proof(id, secret(a.passwordHash), EpochOf(w, id))])
    ensures Proven(after, secret)
  {
    hide Proven, Sound, Continues;
    NewAccountKeeps(w, secret, id, a);
    var mid := w.(auth := w.auth.(accounts := w.auth.accounts[id := a]), hashes := w.hashes + {a.passwordHash});
    var l := Login(Verified, id, a.passwordHash, secret(a.passwordHash), true, EpochOf(w, id));
    OpenedIsProven(mid, secret, auth, session, l, after);
  }

  lemma OperateRegister(w: World, secret: Id -> string, op: Op)
    requires op.OpRegister?
    ensures var r := Register(w.auth, op.id, op.email, op.name, op.hash, op.session, op.installation, op.tokens,
                              op.sessionExpiresAt, op.now);
            Operate(w, secret, op)
            == w.(auth := r.0, hashes := w.hashes + {op.hash},
                  proofs := if r.1.AccountCreated? then w.proofs[op.session := Proof(op.id, secret(op.hash), EpochOf(w, op.id))]
                            else w.proofs)
  {
    hide Register;
  }

  lemma RegisterKeeps(w: World, secret: Id -> string, op: Op)
    requires Proven(w, secret) && op.OpRegister?
    ensures Proven(Operate(w, secret, op), secret)
  {
    ProvenIsSound(w, secret);
    hide Proven, Sound, Register, Continues, EmailTaken, Operate;
    OperateRegister(w, secret, op);
    var r := Register(w.auth, op.id, op.email, op.name, op.hash, op.session, op.installation, op.tokens,
                      op.sessionExpiresAt, op.now);
    RegisterResult(w.auth, op.id, op.email, op.name, op.hash, op.session, op.installation, op.tokens,
                   op.sessionExpiresAt, op.now);
    if r.1.AccountCreated? {
      var a := Account(op.email, op.name, op.hash, Active, None, true, op.now, op.now);
      RegisterIsSound(w.auth, op.id, op.email, op.name, op.hash, op.session, op.installation, op.tokens,
                      op.sessionExpiresAt, op.now);
      forall s | s in r.0.sessions && s != op.session
        ensures s in w.auth.sessions && Continues(w.auth.sessions[s], r.0.sessions[s])
      {
        RegisterSessions(w.auth, op.id, op.email, op.name, op.hash, op.session, op.installation, op.tokens,
                         op.sessionExpiresAt, op.now, s);
      }
      RegisteredIsProven(w, secret, r.0, op.id, a, op.session, Operate(w, secret, op));
    } else {
      MoreHashesKeep(w, secret, op.hash);
    }
  }

  lemma ResetKeeps(w: World, secret: Id -> string, d: Id, request: string, payload: Id, hash: Id, now: int)
    requires Proven(w, secret) && hash !in w.hashes
    ensures var r := ConfirmReset(w.auth, d, request, payload, hash, now);
            Proven(AfterReset(w, r.0, r.1, hash), secret)
  {
    hide *;
    ProvenIsSound(w, secret);
    AfterResetIs(w, ConfirmReset(w.auth, d, request, payload, hash, now).0,
                 ConfirmReset(w.auth, d, request, payload, hash, now).1, hash);
    var r := ConfirmReset(w.auth, d, request, payload, hash, now);
    ConfirmResetIsSound(w.auth, d, request, payload, hash, now);
    ResetSpends(w.auth, d, request, payload, hash, now);
    if r.1.ActionConsumed? {
      ResetResult(w.auth, d, request, payload, hash, now);
      ResetSessions(w.auth, d, request, payload, hash, now);
      var account := r.1.account;
      ResetIsProven(w, secret, r.0, account, w.auth.accounts[account].(passwordHash := hash, updatedAt := now),
                    AfterReset(w, r.0, r.1, hash));
    } else {
      MoreHashesKeep(w, secret, hash);
    }
  }

  lemma AfterResetIs(w: World, auth: Auth, outcome: ActionOutcome, hash: Id)
    ensures AfterReset(w, auth, outcome, hash)
            == w.(auth := auth, hashes := w.hashes + {hash},
                  epochs := if outcome.ActionConsumed? then w.epochs[outcome.account := EpochOf(w, outcome.account) + 1] else w.epochs)
  {
  }

  lemma ProvenIsSound(w: World, secret: Id -> string)
    requires Proven(w, secret)
    ensures Sound(w.auth)
  {
    hide Sound, SessionsAreProven, LoginsAreCurrent;
  }

  lemma ResetIsProven(w: World, secret: Id -> string, auth: Auth, account: Id, a: Account, after: World)
    requires Proven(w, secret) && Sound(auth) && account in w.auth.accounts && a.passwordHash !in w.hashes
    requires auth.accounts == w.auth.accounts[account := a]
    requires OpenOf(auth.sessions, account) == {} && Fewer(w.auth.sessions, auth.sessions)
    requires after == w.(auth := auth, hashes := w.hashes + {a.passwordHash},
                         epochs := w.epochs[account := EpochOf(w, account) + 1])
    ensures Proven(after, secret)
  {
    hide Sound;
    forall t | t in after.logins ensures LoginIsCurrent(after, secret, after.logins[t]) {
      assert LoginIsCurrent(w, secret, w.logins[t]);
    }
    forall s | s in auth.sessions && auth.sessions[s].revokedAt.None? ensures SessionIsProven(after, secret, s) {
      assert auth.sessions[s].account == account ==> s in OpenOf(auth.sessions, account);
      assert SessionIsProven(w, secret, s);
    }
  }

  lemma OperateKeeps(w: World, secret: Id -> string, op: Op)
    requires Proven(w, secret) && Allowed(w, secret, Repository(op))
    ensures Proven(Operate(w, secret, op), secret)
  {
    ProvenIsSound(w, secret);
    hide Proven, Sound, Register, ConfirmReset, Rotate, SetStatus, PruneActions, Supersede, IssueOrFail, Harmless,
         AfterReset;
    if op.OpRegister? {
      RegisterKeeps(w, secret, op);
    } else if op.OpCreateAccount? {
      if op.id !in w.auth.accounts {
        NewAccountKeeps(w, secret, op.id, Account(op.email, op.name, op.hash, Active, None, false, op.now, op.now));
      }
      MoreHashesKeep(w, secret, op.hash);
    } else if op.OpConfirmReset? {
      ResetKeeps(w, secret, op.digest, op.request, op.payload, op.hash, op.now);
    } else {
      OthersAreHarmless(w.auth, op);
      StepIsSound(w.auth, op);
      HarmlessKeepsProven(w, secret, w.(auth := Step(w.auth, op)));
    }
  }

  lemma HappenKeeps(w: World, secret: Id -> string, e: Event)
    requires Proven(w, secret) && Allowed(w, secret, e)
    ensures Proven(Happen(w, secret, e), secret)
  {
    hide Proven, Allowed, BeginLogin, VerifyLogin, RehashLogin, OpenLogin, Operate;
    match e
    case Begin(t, email, password) => BeginKeeps(w, secret, t, email, password);
    case Verify(t) => VerifyKeeps(w, secret, t);
    case Rehash(t, hash, now) => RehashKeeps(w, secret, t, hash, now);
    case Open(t, session, installation, tokens, sessionExpiresAt, now) =>
      OpenKeeps(w, secret, t, session, installation, tokens, sessionExpiresAt, now);
    case Repository(op) => OperateKeeps(w, secret, op);
  }

  lemma {:induction false} HappenAllKeeps(w: World, secret: Id -> string, es: seq<Event>)
    requires Proven(w, secret) && AllAllowed(w, secret, es)
    ensures Proven(HappenAll(w, secret, es), secret)
  {
    hide Proven, Allowed, Happen;
    if es != [] {
      HappenAllKeeps(w, secret, es[..|es| - 1]);
      HappenKeeps(HappenAll(w, secret, es[..|es| - 1]), secret, es[|es| - 1]);
    }
  }

  const NOTHING: World := World(EMPTY, map[], {}, map[], map[])

  lemma NothingIsProven(secret: Id -> string)
    ensures Proven(NOTHING, secret)
  {
    EmptyIsSound();
  }

  // However logins, resets, rehashes, logouts and the other operations interleave, every open
  // session was opened with the account's present password, proven since its last reset.
  lemma NoSessionFromStaleProof(secret: Id -> string, es: seq<Event>, s: Id)
    requires AllAllowed(NOTHING, secret, es) && IsOpen(HappenAll(NOTHING, secret, es).auth, s)
    ensures var w := HappenAll(NOTHING, secret, es); var account := w.auth.sessions[s].account;
            && account in w.auth.accounts && s in w.proofs
            && w.proofs[s] == Proof(account, secret(w.auth.accounts[account].passwordHash), EpochOf(w, account))
  {
    NothingIsProven(secret);
    HappenAllKeeps(NOTHING, secret, es);
    hide HappenAll, Sound;
    assert SessionIsProven(HappenAll(NOTHING, secret, es), secret, s);
  }

  // ---------- Which logins succeed ----------

  // A login that cannot succeed any more, whatever happens.
  predicate HasFailed(w: World, secret: Id -> string, t: nat) {
    && t in w.logins && !w.logins[t].stage.Verified?
    && (w.logins[t].stage.Read? ==> !w.logins[t].active || secret(w.logins[t].hash) != w.logins[t].password)
  }

  predicate Concerns(e: Event, t: nat) {
    (e.Rehash? && e.login == t) || (e.Open? && e.login == t)
  }

  lemma FailedStaysFailed(w: World, secret: Id -> string, t: nat, e: Event)
    requires HasFailed(w, secret, t) && !(e.Begin? && e.login == t)
    ensures HasFailed(Happen(w, secret, e), secret, t)
    ensures Concerns(e, t) ==> Happen(w, secret, e) == w
  {
    hide Register, ConfirmReset, Step, CreateSession, UpdateHash;
  }

  lemma {:induction false} FailedForGood(w: World, secret: Id -> string, t: nat, es: seq<Event>)
    requires HasFailed(w, secret, t) && forall e :: e in es ==> !(e.Begin? && e.login == t)
    ensures HasFailed(HappenAll(w, secret, es), secret, t)
  {
    hide HasFailed, Happen;
    if es != [] {
      FailedForGood(w, secret, t, es[..|es| - 1]);
      FailedStaysFailed(HappenAll(w, secret, es[..|es| - 1]), secret, t, es[|es| - 1]);
    }
  }

  // A login with an address that no active account has with that password when the hash is read
  // opens no session and stores no hash, even if the account becomes active or the password is
  // reset to the one given while the login is under way.
  lemma UnprovenLoginDoesNothing(w: World, secret: Id -> string, t: nat, email: string, password: string,
                                 es: seq<Event>, e: Event)
    requires forall a :: a in w.auth.accounts && w.auth.accounts[a].email == email && w.auth.accounts[a].status == Active ==>
               secret(w.auth.accounts[a].passwordHash) != password
    requires (forall e :: e in es ==> !(e.Begin? && e.login == t)) && Concerns(e, t)
    ensures var after := HappenAll(Happen(w, secret, Begin(t, email, password)), secret, es);
            Happen(after, secret, e) == after
  {
    hide Happen, HappenAll;
    var begun := Happen(w, secret, Begin(t, email, password));
    BegunUnproven(w, secret, t, email, password);
    FailedForGood(begun, secret, t, es);
    FailedStaysFailed(HappenAll(begun, secret, es), secret, t, e);
  }

  lemma BegunUnproven(w: World, secret: Id -> string, t: nat, email: string, password: string)
    requires forall a :: a in w.auth.accounts && w.auth.accounts[a].email == email && w.auth.accounts[a].status == Active ==>
               secret(w.auth.accounts[a].passwordHash) != password
    ensures HasFailed(Happen(w, secret, Begin(t, email, password)), secret, t)
  {
  }

  // A verified login that holds the stored hash of an active account.
  predicate Holds(w: World, t: nat, account: Id) {
    && t in w.logins && w.logins[t].stage.Verified? && w.logins[t].account == account
    && account in w.auth.accounts && w.auth.accounts[account].status == Active
    && w.auth.accounts[account].passwordHash == w.logins[t].hash
  }

  lemma ProvenLoginHolds(w: World, secret: Id -> string, t: nat, account: Id, password: string)
    requires account in w.auth.accounts && w.auth.accounts[account].status == Active
    requires secret(w.auth.accounts[account].passwordHash) == password
    requires forall a :: a in w.auth.accounts && w.auth.accounts[a].email == w.auth.accounts[account].email ==> a == account
    ensures var verified := Happen(Happen(w, secret, Begin(t, w.auth.accounts[account].email, password)), secret, Verify(t));
            Holds(verified, t, account) && verified.auth == w.auth
  {
  }

  lemma RehashStillHolds(w: World, secret: Id -> string, t: nat, account: Id, hash: Id, now: int)
    requires Holds(w, t, account)
    ensures var after := Happen(w, secret, Rehash(t, hash, now));
            && Holds(after, t, account) && after.logins[t].hash == hash
            && after.auth == w.auth.(accounts := after.auth.accounts)
  {
  }

  // Whoever proves the password of an active account, its hash renewed or not, gets a session,
  // unless the ids drawn for it are in use.
  lemma ProvenLoginSucceeds(w: World, secret: Id -> string, t: nat, account: Id, password: string, rehash: Option<Id>,
                            session: Id, installation: string, tok: Tokens, expiresAt: int, now: int)
    requires account in w.auth.accounts && w.auth.accounts[account].status == Active
    requires secret(w.auth.accounts[account].passwordHash) == password && Sound(w.auth)
    requires forall a :: a in w.auth.accounts && w.auth.accounts[a].email == w.auth.accounts[account].email ==> a == account
    requires session !in w.auth.sessions && tok.access !in w.auth.access && tok.refresh !in w.auth.refresh
    ensures var begun := Happen(w, secret, Begin(t, w.auth.accounts[account].email, password));
            var verified := Happen(begun, secret, Verify(t));
            var hashed := if rehash.Some? then Happen(verified, secret, Rehash(t, rehash.value, now)) else verified;
            var after := Happen(hashed, secret, Open(t, session, installation, tok, expiresAt, now));
            && session in after.auth.sessions
            && after.auth.sessions[session] == Session(account, installation, now, now, expiresAt, None)
  {
    hide Happen, Sound, CreateSession, Holds;
    var verified := Happen(Happen(w, secret, Begin(t, w.auth.accounts[account].email, password)), secret, Verify(t));
    ProvenLoginHolds(w, secret, t, account, password);
    SoundIsLinked(w.auth);
    if rehash.Some? {
      RehashStillHolds(verified, secret, t, account, rehash.value, now);
      RehashKeepsLinked(verified, secret, t, rehash.value, now);
    }
    var hashed := if rehash.Some? then Happen(verified, secret, Rehash(t, rehash.value, now)) else verified;
    HoldingLoginOpens(hashed, secret, t, account, session, installation, tok, expiresAt, now);
  }

  lemma RehashKeepsLinked(w: World, secret: Id -> string, t: nat, hash: Id, now: int)
    requires Linked(w.auth)
    ensures Linked(Happen(w, secret, Rehash(t, hash, now)).auth)
  {
  }

  lemma HoldingLoginOpens(w: World, secret: Id -> string, t: nat, account: Id, session: Id, installation: string,
                          tok: Tokens, expiresAt: int, now: int)
    requires Holds(w, t, account) && Linked(w.auth)
    requires session !in w.auth.sessions && tok.access !in w.auth.access && tok.refresh !in w.auth.refresh
    ensures var after := Happen(w, secret, Open(t, session, installation, tok, expiresAt, now)).auth;
            && session in after.sessions
            && after.sessions[session] == Session(account, installation, now, now, expiresAt, None)
  {
    hide CreateSession, Linked, AfterClosing, KeepsFifty;
    var l := w.logins[t];
    LoginAnswers(w.auth, account, l.hash, session, installation, tok, expiresAt, now);
    var closed := LoginSessions(w.auth, account, l.hash, session, installation, tok, expiresAt, now);
  }
}
