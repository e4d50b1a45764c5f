/** The tables of accounts, sessions and tokens, and the retention rules that bound them. */
module AuthTables {
  import opened Basics

  // Ids, digests, nonces and password hashes are opaque; only their order matters, and only
  // where the server sorts by id.
  type Id = nat

  datatype Status = Active | Suspended | Deleting

  datatype Account = Account(email: string, displayName: string, passwordHash: Id, status: Status,
                             verifiedAt: Option<int>, verificationRequired: bool,
                             createdAt: int, updatedAt: int)

  datatype Session = Session(account: Id, installation: string, createdAt: int, lastSeenAt: int,
                             expiresAt: int, revokedAt: Option<int>)

  // Rows of the token tables are numbered in the order of their insertion.
  datatype Access = Access(nonce: Id, session: Id, createdAt: int, expiresAt: int, row: nat)

  datatype Consumption = Consumption(at: int, requestId: string, refresh: Id, access: Id)

  datatype Refresh = Refresh(nonce: Id, session: Id, createdAt: int, expiresAt: int, row: nat,
                             consumed: Option<Consumption>)

  datatype Purpose = EmailVerification | PasswordReset

  datatype Use = Use(at: int, requestId: string, payload: Id)

  datatype Action = Action(nonce: Id, account: Id, purpose: Purpose, createdAt: int, expiresAt: int,
                           supersededAt: Option<int>, used: Option<Use>)

  datatype Auth = Auth(accounts: map<Id, Account>, sessions: map<Id, Session>, access: map<Id, Access>,
                       refresh: map<Id, Refresh>, actions: map<Id, Action>, nextRow: nat)

  const MAX_ACTIVE_SESSIONS := 10
  const MAX_RETAINED_REVOKED := 50
  const MAX_ACCESS_TOKENS := 4
  const RETENTION_GRACE_MS := 7 * 24 * 60 * 60 * 1000

  // ---------- Orders ----------

  // What rows are sorted by, newest first: two times, then the row or the id.
  datatype Stamp = Stamp(first: int, second: int, tie: nat)

  predicate Newer(a: Stamp, b: Stamp) {
    || a.first > b.first
    || (a.first == b.first && (a.second > b.second || (a.second == b.second && a.tie > b.tie)))
  }

  // The rows ahead of one row.
  function Ahead(stamps: map<Id, Stamp>, x: Id): set<Id>
    requires x in stamps
  {
    set y | y in stamps && Newer(stamps[y], stamps[x])
  }

  // The newest rows, at most so many: LIMIT, or a slice of the sorted rows.
  function Newest(stamps: map<Id, Stamp>, limit: nat): set<Id> {
    set x | x in stamps && |Ahead(stamps, x)| < limit
  }

  ghost predicate DistinctStamps(stamps: map<Id, Stamp>) {
    forall x, y :: x in stamps && y in stamps && x != y ==> stamps[x] != stamps[y]
  }

  lemma SubsetSize<T>(a: set<T>, b: set<T>)
    requires a <= b
    ensures |a| <= |b|
    ensures a != b ==> |a| < |b|
  {
    assert b == a + (b - a);
    if a != b {
      assert b - a != {};
    }
  }

  // The oldest of a set of rows.
  lemma {:induction false} OldestExists(stamps: map<Id, Stamp>, s: set<Id>) returns (oldest: Id)
    requires s != {} && s <= stamps.Keys && DistinctStamps(stamps)
    ensures oldest in s && forall y :: y in s && y != oldest ==> Newer(stamps[y], stamps[oldest])
  {
    var x :| x in s;
    oldest := x;
    if s != {x} {
      var candidate := OldestExists(stamps, s - {x});
      if !Newer(stamps[candidate], stamps[x]) {
        oldest := candidate;
      }
    }
  }

  // No more rows are kept than the limit allows, and each is newer than every row dropped.
  lemma {:induction false} NewestIsBounded(stamps: map<Id, Stamp>, limit: nat)
    requires DistinctStamps(stamps)
    ensures |Newest(stamps, limit)| <= limit
    ensures forall x, y :: x in Newest(stamps, limit) && y in stamps && y !in Newest(stamps, limit) ==>
              Newer(stamps[x], stamps[y])
  {
    var kept := Newest(stamps, limit);
    if kept != {} {
      var oldest := OldestExists(stamps, kept);
      forall y | y in kept && y != oldest ensures y in Ahead(stamps, oldest) {
      }
      SubsetSize(kept - {oldest}, Ahead(stamps, oldest));
      assert kept == (kept - {oldest}) + {oldest};
    }
    forall x, y | x in kept && y in stamps && y !in kept ensures Newer(stamps[x], stamps[y]) {
      if !Newer(stamps[x], stamps[y]) {
        assert Newer(stamps[y], stamps[x]);
        assert Ahead(stamps, y) <= Ahead(stamps, x);
        SubsetSize(Ahead(stamps, y), Ahead(stamps, x));
      }
    }
  }

  // Rows are dropped only beyond the limit.
  lemma NewestIsFull(stamps: map<Id, Stamp>, limit: nat)
    requires |stamps| <= limit
    ensures Newest(stamps, limit) == stamps.Keys
  {
    forall x | x in stamps ensures |Ahead(stamps, x)| < limit {
      SubsetSize(Ahead(stamps, x), stamps.Keys);
      assert x !in Ahead(stamps, x) && x in stamps.Keys;
    }
  }

  lemma OldestIsLast(stamps: map<Id, Stamp>, oldest: Id, x: Id)
    requires oldest in stamps && x in stamps
    requires forall y :: y in stamps && y != oldest ==> Newer(stamps[y], stamps[oldest])
    ensures if x == oldest then Ahead(stamps, x) == stamps.Keys - {oldest} else Ahead(stamps, x) == Ahead(stamps - {oldest}, x)
  {
  }

  // As many rows are kept as the limit allows.
  lemma {:induction false} NewestIsFilled(stamps: map<Id, Stamp>, limit: nat)
    requires DistinctStamps(stamps)
    ensures |Newest(stamps, limit)| == Min(limit, |stamps|)
    decreases |stamps|
  {
    assert |stamps| == |stamps.Keys|;
    if |stamps| <= limit {
      NewestIsFull(stamps, limit);
    } else {
      var oldest := OldestExists(stamps, stamps.Keys);
      var rest := stamps - {oldest};
      assert rest.Keys == stamps.Keys - {oldest} && |rest| == |rest.Keys|;
      NewestIsFilled(rest, limit);
      assert Newest(stamps, limit) == Newest(rest, limit) by {
        forall x | x in stamps ensures x in Newest(stamps, limit) <==> x in Newest(rest, limit) {
          OldestIsLast(stamps, oldest, x);
        }
      }
    }
  }

  // ---------- Deleting and revoking ----------

  function DropTokens(st: Auth, ids: set<Id>): Auth {
    st.(access := map d | d in st.access && st.access[d].session !in ids :: st.access[d],
        refresh := map d | d in st.refresh && st.refresh[d].session !in ids :: st.refresh[d])
  }

  // _delete_sessions
  function DropSessions(st: Auth, ids: set<Id>): Auth {
    DropTokens(st, ids).(sessions := map s | s in st.sessions && s !in ids :: st.sessions[s])
  }

  // UPDATE auth_sessions SET revoked_at=? WHERE id IN (…) AND revoked_at IS NULL
  function Revoke(sessions: map<Id, Session>, ids: set<Id>, now: int): map<Id, Session> {
    map s | s in sessions ::
      if s in ids && sessions[s].revokedAt.None? then sessions[s].(revokedAt := Some(now)) else sessions[s]
  }

  // _revoke_sessions and _delete_session_tokens
  function RevokeAndDrop(st: Auth, ids: set<Id>, now: int): Auth {
    DropTokens(st.(sessions := Revoke(st.sessions, ids, now)), ids)
  }

  // ---------- prune_stale_sessions ----------

  function ExpiredSessions(sessions: map<Id, Session>, now: int): set<Id> {
    set s | s in sessions && sessions[s].revokedAt.None? && sessions[s].expiresAt <= now
  }

  function StaleSessions(sessions: map<Id, Session>, now: int): set<Id> {
    var cutoff := now - RETENTION_GRACE_MS;
    set s | s in sessions &&
      (sessions[s].expiresAt < cutoff || (sessions[s].revokedAt.Some? && sessions[s].revokedAt.value < cutoff))
  }

  function PruneStale(st: Auth, now: int): Auth {
    var revoked := Revoke(st.sessions, ExpiredSessions(st.sessions, now), now);
    DropSessions(st.(sessions := revoked), StaleSessions(revoked, now))
  }

  // ---------- prune_expired_tokens ----------

  predicate IsLive(refresh: map<Id, Refresh>, d: Id, now: int) {
    d in refresh && refresh[d].consumed.None? && refresh[d].expiresAt > now
  }

  // A consumed parent whose replacement is live stays for retries.
  predicate IsRetryable(refresh: map<Id, Refresh>, p: Id, now: int) {
    p in refresh && refresh[p].consumed.Some? && IsLive(refresh, refresh[p].consumed.value.refresh, now)
  }

  function UnexpiredRefresh(refresh: map<Id, Refresh>, now: int): map<Id, Refresh> {
    map d | d in refresh && (refresh[d].consumed.Some? || refresh[d].expiresAt > now) :: refresh[d]
  }

  function UsefulRefresh(refresh: map<Id, Refresh>, now: int): map<Id, Refresh> {
    var r := UnexpiredRefresh(refresh, now);
    map d | d in r && (r[d].consumed.None? || IsRetryable(r, d, now)) :: r[d]
  }

  // The access token a retry would hand out again.
  predicate IsPromised(refresh: map<Id, Refresh>, a: Id, now: int) {
    exists p :: p in refresh && IsRetryable(refresh, p, now) && refresh[p].consumed.value.access == a
  }

  function PruneExpired(st: Auth, now: int): Auth {
    var refresh := UsefulRefresh(st.refresh, now);
    st.(refresh := refresh,
        access := map a | a in st.access && (st.access[a].expiresAt > now || IsPromised(refresh, a, now)) :: st.access[a])
  }

  // ---------- prune_session_token_family ----------

  function LiveStamps(refresh: map<Id, Refresh>, session: Id, now: int): map<Id, Stamp> {
    map d | d in refresh && refresh[d].session == session && IsLive(refresh, d, now) ::
      Stamp(refresh[d].createdAt, refresh[d].row, d)
  }

  // The newest live refresh token of the session.
  function Current(refresh: map<Id, Refresh>, session: Id, now: int): set<Id> {
    Newest(LiveStamps(refresh, session, now), 1)
  }

  function ParentStamps(refresh: map<Id, Refresh>, session: Id, current: set<Id>): map<Id, Stamp> {
    map d | d in refresh && refresh[d].session == session && refresh[d].consumed.Some?
            && refresh[d].consumed.value.refresh in current ::
      Stamp(refresh[d].consumed.value.at, refresh[d].row, d)
  }

  // The latest token that was consumed for the current one.
  function Parent(refresh: map<Id, Refresh>, session: Id, current: set<Id>): set<Id> {
    Newest(ParentStamps(refresh, session, current), 1)
  }

  function ProtectedAccess(refresh: map<Id, Refresh>, parent: set<Id>): set<Id> {
    set p | p in parent && p in refresh && refresh[p].consumed.Some? :: refresh[p].consumed.value.access
  }

  function EligibleStamps(access: map<Id, Access>, session: Id, protected: set<Id>, now: int): map<Id, Stamp> {
    map a | a in access && access[a].session == session && (access[a].expiresAt > now || a in protected) ::
      Stamp(access[a].createdAt, access[a].row, a)
  }

  // The newest usable access tokens, and in any case the one a retry would hand out.
  function KeptAccess(access: map<Id, Access>, session: Id, protected: set<Id>, now: int): set<Id> {
    var eligible := EligibleStamps(access, session, protected, now);
    Newest(eligible, MAX_ACCESS_TOKENS) + (protected * eligible.Keys)
  }

  function PruneFamily(st: Auth, session: Id, now: int): Auth {
    var current := Current(st.refresh, session, now);
    var parent := Parent(st.refresh, session, current);
    var kept := KeptAccess(st.access, session, ProtectedAccess(st.refresh, parent), now);
    st.(refresh := map d | d in st.refresh && (st.refresh[d].session != session || d in current + parent) :: st.refresh[d],
        access := map a | a in st.access && (st.access[a].session != session || a in kept) :: st.access[a])
  }

  // ---------- prepare_new_session ----------

  function OpenOf(sessions: map<Id, Session>, account: Id): set<Id> {
    set s | s in sessions && sessions[s].account == account && sessions[s].revokedAt.None?
  }

  function Replaced(sessions: map<Id, Session>, account: Id, installation: string): set<Id> {
    set s | s in OpenOf(sessions, account) && s in sessions && sessions[s].installation == installation
  }

  // ORDER BY last_seen_at DESC,created_at DESC,id DESC
  function OpenStamps(sessions: map<Id, Session>, account: Id): map<Id, Stamp> {
    map s | s in sessions && sessions[s].account == account && sessions[s].revokedAt.None? ::
      Stamp(sessions[s].lastSeenAt, sessions[s].createdAt, s)
  }

  function Overflow(sessions: map<Id, Session>, account: Id): set<Id> {
    OpenStamps(sessions, account).Keys - Newest(OpenStamps(sessions, account), MAX_ACTIVE_SESSIONS - 1)
  }

  // ORDER BY revoked_at DESC,created_at DESC,id DESC
  function RevokedStamps(sessions: map<Id, Session>, account: Id): map<Id, Stamp> {
    map s | s in sessions && sessions[s].account == account && sessions[s].revokedAt.Some? ::
      Stamp(sessions[s].revokedAt.value, sessions[s].createdAt, s)
  }

  function TrimRevoked(st: Auth, account: Id): Auth {
    var stamps := RevokedStamps(st.sessions, account);
    DropSessions(st, stamps.Keys - Newest(stamps, MAX_RETAINED_REVOKED))
  }

  function PrepareSession(st: Auth, account: Id, installation: string, now: int): Auth {
    var replaced := RevokeAndDrop(st, Replaced(st.sessions, account, installation), now);
    var bounded := RevokeAndDrop(replaced, Overflow(replaced.sessions, account), now);
    TrimRevoked(bounded, account)
  }
}
