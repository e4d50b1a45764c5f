/** The account repository itself: rows selected, revoked and deleted step by step, each operation
    proved against the state machine of AuthMachine. */
module AuthStore {
  import opened Basics
  import opened AuthTables
  import opened AuthMachine
  import opened AuthInvariant
  import opened AuthOperations
  import opened ActionTokens
  import opened ActionOutcomes
  import opened RefreshOutcomes
  import opened AccountOutcomes

  // ---------- Sorted rows ----------

  function SetOf(q: seq<Id>): set<Id> {
    set x | x in q
  }

  lemma SetOfNext(q: seq<Id>, i: nat)
    requires i < |q|
    ensures SetOf(q[..i + 1]) == SetOf(q[..i]) + {q[i]}
  {
    assert q[..i + 1] == q[..i] + [q[i]];
  }

  lemma SetOfAppend(q: seq<Id>, x: Id)
    ensures SetOf(q + [x]) == SetOf(q) + {x}
  {
  }

  // The rows of a table, newest first.
  ghost predicate NewestFirst(stamps: map<Id, Stamp>, q: seq<Id>) {
    && (forall x :: x in q <==> x in stamps)
    && (forall i, j :: 0 <= i < j < |q| ==>
          q[i] != q[j] && q[i] in stamps && q[j] in stamps && Newer(stamps[q[i]], stamps[q[j]]))
  }

  lemma AheadInOrder(stamps: map<Id, Stamp>, q: seq<Id>, i: nat)
    requires NewestFirst(stamps, q) && i < |q|
    ensures q[i] in stamps && |Ahead(stamps, q[i])| == i
  {
    assert q[i] in q;
    forall y ensures y in Ahead(stamps, q[i]) <==> y in SetOf(q[..i]) {
      if y in stamps {
        assert y in q;
        var j :| 0 <= j < |q| && q[j] == y;
        assert j < i ==> q[..i][j] == y && Newer(stamps[q[j]], stamps[q[i]]);
        assert j > i ==> Newer(stamps[q[i]], stamps[q[j]]);
        assert j >= i ==> q[j] !in q[..i];
      }
    }
    assert Ahead(stamps, q[i]) == SetOf(q[..i]);
    SizeOfDistinct(q[..i]);
  }

  lemma {:induction false} SizeOfDistinct(q: seq<Id>)
    requires forall i, j :: 0 <= i < j < |q| ==> q[i] != q[j]
    ensures |SetOf(q)| == |q|
  {
    if q != [] {
      var init, last := q[..|q| - 1], q[|q| - 1];
      SizeOfDistinct(init);
      LastIsNew(q);
      assert q == init + [last];
      SetOfAppend(init, last);
      assert last !in SetOf(init);
    }
  }

  lemma LastIsNew(q: seq<Id>)
    requires q != [] && forall i, j :: 0 <= i < j < |q| ==> q[i] != q[j]
    ensures q[|q| - 1] !in q[..|q| - 1]
  {
  }

  lemma InNewest(stamps: map<Id, Stamp>, q: seq<Id>, limit: nat, i: nat)
    requires NewestFirst(stamps, q) && i < |q|
    ensures q[i] in stamps && (q[i] in Newest(stamps, limit) <==> i < limit)
  {
    AheadInOrder(stamps, q, i);
    hide NewestFirst, Ahead;
  }

  lemma SplitMember(q: seq<Id>, k: nat, i: nat)
    requires k <= |q| && i < |q| && forall i, j :: 0 <= i < j < |q| ==> q[i] != q[j]
    ensures q[i] in SetOf(q[..k]) <==> i < k
    ensures q[i] in SetOf(q[k..]) <==> i >= k
  {
    assert i < k ==> q[..k][i] == q[i];
    assert i >= k ==> q[k..][i - k] == q[i];
    assert forall j :: 0 <= j < |q| - k ==> q[k..][j] == q[k + j];
  }

  lemma OrderIsDistinct(stamps: map<Id, Stamp>, q: seq<Id>)
    requires NewestFirst(stamps, q)
    ensures forall i, j :: 0 <= i < j < |q| ==> q[i] != q[j]
  {
  }

  lemma SplitIsNewest(stamps: map<Id, Stamp>, q: seq<Id>, limit: nat, x: Id)
    requires NewestFirst(stamps, q) && x in q
    ensures var k := Min(limit, |q|);
            (x in SetOf(q[..k]) <==> x in Newest(stamps, limit)) && (x in SetOf(q[k..]) <==> x !in Newest(stamps, limit))
  {
    OrderIsDistinct(stamps, q);
    hide NewestFirst, Newest, SetOf;
    var i :| 0 <= i < |q| && q[i] == x;
    InNewest(stamps, q, limit, i);
    SplitMember(q, Min(limit, |q|), i);
  }

  // The first rows of the order are the newest ones.
  lemma PrefixIsNewest(stamps: map<Id, Stamp>, q: seq<Id>, limit: nat)
    requires NewestFirst(stamps, q)
    ensures Newest(stamps, limit) == SetOf(q[..Min(limit, |q|)])
    ensures stamps.Keys - Newest(stamps, limit) == SetOf(q[Min(limit, |q|)..])
  {
    OnlyRows(stamps, q, limit);
    hide NewestFirst, Newest;
    var k := Min(limit, |q|);
    assert forall x :: x in q[..k] || x in q[k..] ==> x in q;
    forall x ensures x in Newest(stamps, limit) <==> x in SetOf(q[..k])
             ensures x in stamps.Keys - Newest(stamps, limit) <==> x in SetOf(q[k..]) {
      if x in q {
        SplitIsNewest(stamps, q, limit, x);
      }
    }
  }

  lemma OnlyRows(stamps: map<Id, Stamp>, q: seq<Id>, limit: nat)
    requires NewestFirst(stamps, q)
    ensures forall x :: x in stamps <==> x in q
    ensures forall x :: x in Newest(stamps, limit) ==> x in stamps
  {
  }

  // ORDER BY … DESC
  method SelectNewestFirst(stamps: map<Id, Stamp>) returns (q: seq<Id>)
    requires DistinctStamps(stamps)
    ensures NewestFirst(stamps, q)
  {
    q := [];
    var rest := stamps.Keys;
    while rest != {}
      invariant rest <= stamps.Keys
      invariant forall x :: x in q <==> x in stamps && x !in rest
      invariant Descending(stamps, q)
      decreases |rest|
    {
      var x :| x in rest;
      var at := |q|;
      while at > 0 && Newer(stamps[x], stamps[q[at - 1]])
        invariant 0 <= at <= |q|
        invariant forall i :: at <= i < |q| ==> q[i] in stamps && Newer(stamps[x], stamps[q[i]])
      {
        at := at - 1;
      }
      InsertNewest(stamps, q, x, at);
      q := q[..at] + [x] + q[at..];
      rest := rest - {x};
    }
  }

  // Rows of the table, each newer than the next.
  ghost predicate Descending(stamps: map<Id, Stamp>, q: seq<Id>) {
    forall i, j :: 0 <= i < j < |q| ==>
      q[i] != q[j] && q[i] in stamps && q[j] in stamps && Newer(stamps[q[i]], stamps[q[j]])
  }

  lemma DescendingAt(stamps: map<Id, Stamp>, q: seq<Id>, i: nat, j: nat)
    requires Descending(stamps, q) && i < j < |q|
    ensures q[i] != q[j] && q[i] in stamps && q[j] in stamps && Newer(stamps[q[i]], stamps[q[j]])
  {
  }

  lemma InsertNewest(stamps: map<Id, Stamp>, q: seq<Id>, x: Id, at: nat)
    requires DistinctStamps(stamps) && at <= |q| && x in stamps && x !in q && Descending(stamps, q)
    requires forall y :: y in q ==> y in stamps
    requires at > 0 ==> !Newer(stamps[x], stamps[q[at - 1]])
    requires forall i :: at <= i < |q| ==> q[i] in stamps && Newer(stamps[x], stamps[q[i]])
    ensures Descending(stamps, q[..at] + [x] + q[at..])
    ensures forall y :: y in q[..at] + [x] + q[at..] <==> y in q || y == x
  {
    hide Newer, Descending;
    var r := q[..at] + [x] + q[at..];
    assert q == q[..at] + q[at..];
    forall i, j | 0 <= i < j < |r| ensures r[i] != r[j] && r[i] in stamps && r[j] in stamps && Newer(stamps[r[i]], stamps[r[j]]) {
      InsertedAt(q, x, at, i);
      InsertedAt(q, x, at, j);
      if i != at && j != at {
        DescendingAt(stamps, q, if i < at then i else i - 1, if j < at then j else j - 1);
      } else if j == at {
        BehindAll(stamps, q, x, at, i);
      }
    }
    IsDescending(stamps, r);
  }

  lemma IsDescending(stamps: map<Id, Stamp>, q: seq<Id>)
    requires forall i, j :: 0 <= i < j < |q| ==>
               q[i] != q[j] && q[i] in stamps && q[j] in stamps && Newer(stamps[q[i]], stamps[q[j]])
    ensures Descending(stamps, q)
  {
  }

  // A row that is not newer than its predecessor is older than all before.
  lemma BehindAll(stamps: map<Id, Stamp>, q: seq<Id>, x: Id, at: nat, i: nat)
    requires DistinctStamps(stamps) && i < at <= |q| && x in stamps && x !in q && Descending(stamps, q)
    requires q[at - 1] in stamps && !Newer(stamps[x], stamps[q[at - 1]])
    ensures q[i] in stamps && Newer(stamps[q[i]], stamps[x])
  {
    hide Descending;
    assert q[at - 1] in q;
    if i < at - 1 {
      DescendingAt(stamps, q, i, at - 1);
    }
  }

  lemma InsertedAt(q: seq<Id>, x: Id, at: nat, i: nat)
    requires at <= |q| && i <= |q|
    ensures (q[..at] + [x] + q[at..])[i] == if i < at then q[i] else if i == at then x else q[i - 1]
    ensures i < at ==> q[i] in q
    ensures i > at ==> q[i - 1] in q
  {
  }

  // ---------- The access rows a family keeps ----------

  // The eligible rows among the first of the order.
  function EligibleAmong(eligible: map<Id, Stamp>, q: seq<Id>): set<Id> {
    set x | x in q && x in eligible
  }

  // How the loop over the rows decides about one more.
  ghost predicate KeepsSoFar(eligible: map<Id, Stamp>, protected: set<Id>, q: seq<Id>, keep: set<Id>) {
    && keep <= EligibleAmong(eligible, q)
    && (forall x :: x in EligibleAmong(eligible, q) ==>
          (x in keep <==> x in Newest(eligible, MAX_ACCESS_TOKENS) || x in protected))
    && (|EligibleAmong(eligible, q)| < MAX_ACCESS_TOKENS ==> keep == EligibleAmong(eligible, q))
    && (|EligibleAmong(eligible, q)| >= MAX_ACCESS_TOKENS ==> |keep| >= MAX_ACCESS_TOKENS)
  }

  lemma KeepStep(all: map<Id, Stamp>, eligible: map<Id, Stamp>, protected: set<Id>, q: seq<Id>, i: nat, keep: set<Id>)
    requires NewestFirst(all, q) && i < |q| && KeepsSoFar(eligible, protected, q[..i], keep)
    requires forall x :: x in eligible ==> x in all && eligible[x] == all[x]
    ensures q[..i + 1] == q[..i] + [q[i]]
    ensures var next := if q[i] in eligible && (|keep| < MAX_ACCESS_TOKENS || q[i] in protected) then keep + {q[i]} else keep;
            KeepsSoFar(eligible, protected, q[..i + 1], next)
  {
    hide NewestFirst, Newest, KeepsSoFar, EligibleAmong;
    var x := q[i];
    assert q[..i + 1] == q[..i] + [x];
    EligibleNext(eligible, q, i);
    if x in eligible {
      EligiblePlace(all, eligible, q, i);
      KeepEligible(eligible, protected, q[..i], x, keep);
    } else {
      KeepIneligible(eligible, protected, q[..i], q[..i + 1], keep);
    }
  }

  lemma EligiblePlace(all: map<Id, Stamp>, eligible: map<Id, Stamp>, q: seq<Id>, i: nat)
    requires NewestFirst(all, q) && i < |q| && q[i] in eligible
    requires forall x :: x in eligible ==> x in all && eligible[x] == all[x]
    ensures q[i] !in q[..i]
    ensures q[i] in Newest(eligible, MAX_ACCESS_TOKENS) <==> |EligibleAmong(eligible, q[..i])| < MAX_ACCESS_TOKENS
  {
    hide NewestFirst, Ahead, EligibleAmong;
    EligibleAhead(all, eligible, q, i);
    NotYetSeen(all, q, i);
  }

  lemma KeepIneligible(eligible: map<Id, Stamp>, protected: set<Id>, q: seq<Id>, next: seq<Id>, keep: set<Id>)
    requires KeepsSoFar(eligible, protected, q, keep)
    requires EligibleAmong(eligible, next) == EligibleAmong(eligible, q)
    ensures KeepsSoFar(eligible, protected, next, keep)
  {
    hide Newest, EligibleAmong;
  }

  lemma EligibleNext(eligible: map<Id, Stamp>, q: seq<Id>, i: nat)
    requires i < |q|
    ensures EligibleAmong(eligible, q[..i + 1])
            == EligibleAmong(eligible, q[..i]) + if q[i] in eligible then {q[i]} else {}
  {
    assert q[..i + 1] == q[..i] + [q[i]];
  }

  lemma NotYetSeen(all: map<Id, Stamp>, q: seq<Id>, i: nat)
    requires NewestFirst(all, q) && i < |q|
    ensures q[i] !in q[..i]
  {
  }

  lemma KeepEligible(eligible: map<Id, Stamp>, protected: set<Id>, q: seq<Id>, x: Id, keep: set<Id>)
    requires KeepsSoFar(eligible, protected, q, keep) && x in eligible && x !in q
    requires x in Newest(eligible, MAX_ACCESS_TOKENS) <==> |EligibleAmong(eligible, q)| < MAX_ACCESS_TOKENS
    requires EligibleAmong(eligible, q + [x]) == EligibleAmong(eligible, q) + {x}
    ensures var next := if |keep| < MAX_ACCESS_TOKENS || x in protected then keep + {x} else keep;
            KeepsSoFar(eligible, protected, q + [x], next)
  {
    hide Newest;
    var before := EligibleAmong(eligible, q);
    assert x !in before && x !in keep;
    assert |before + {x}| == |before| + 1 && |keep + {x}| == |keep| + 1;
  }

  lemma EligibleAhead(all: map<Id, Stamp>, eligible: map<Id, Stamp>, q: seq<Id>, i: nat)
    requires NewestFirst(all, q) && i < |q| && q[i] in eligible
    requires forall x :: x in eligible ==> x in all && eligible[x] == all[x]
    ensures Ahead(eligible, q[i]) == EligibleAmong(eligible, q[..i])
  {
    forall y | y in eligible ensures Newer(eligible[y], eligible[q[i]]) <==> y in q[..i] {
      assert y in q;
      var j :| 0 <= j < |q| && q[j] == y;
      assert j < i ==> q[..i][j] == y;
      assert j >= i ==> q[j] !in q[..i];
    }
  }

  lemma KeepsAtEnd(eligible: map<Id, Stamp>, protected: set<Id>, q: seq<Id>, keep: set<Id>)
    requires KeepsSoFar(eligible, protected, q, keep) && forall x :: x in eligible ==> x in q
    ensures keep == Newest(eligible, MAX_ACCESS_TOKENS) + (protected * eligible.Keys)
  {
    assert EligibleAmong(eligible, q) == eligible.Keys;
  }

  // ---------- Statements executed for many ids ----------

  lemma RevokeOneMore(sessions: map<Id, Session>, ids: set<Id>, id: Id, now: int)
    ensures Revoke(Revoke(sessions, ids, now), {id}, now) == Revoke(sessions, ids + {id}, now)
  {
  }

  lemma DropOneMore(st: Auth, ids: set<Id>, id: Id)
    ensures DropTokens(DropTokens(st, ids), {id}) == DropTokens(st, ids + {id})
  {
  }

  lemma DropOne(st: Auth, id: Id, after: Auth)
    requires after.access == map d | d in st.access && st.access[d].session != id :: st.access[d]
    requires after.refresh == map d | d in st.refresh && st.refresh[d].session != id :: st.refresh[d]
    requires after == st.(access := after.access, refresh := after.refresh)
    ensures after == DropTokens(st, {id})
  {
  }

  lemma NothingDropped(st: Auth, now: int)
    ensures DropTokens(st, {}) == st && Revoke(st.sessions, {}, now) == st.sessions && DropSessions(st, {}) == st
  {
    assert DropTokens(st, {}).access == st.access && DropTokens(st, {}).refresh == st.refresh;
  }

  // ---------- Valid tables ----------

  ghost predicate UniqueEmails(accounts: map<Id, Account>) {
    forall a, b :: a in accounts && b in accounts && accounts[a].email == accounts[b].email ==> a == b
  }

  function ActiveMatches(accounts: map<Id, Account>, email: string): set<Id> {
    set a | a in accounts && accounts[a].email == email && accounts[a].status.Active?
  }

  ghost predicate IsValid(st: Auth) {
    Sound(st) && OnePending(st.actions) && UniqueEmails(st.accounts)
  }

  lemma EmptyIsValid()
    ensures IsValid(EMPTY)
  {
    hide Sound;
    EmptyIsSound();
  }

  lemma NewEmail(accounts: map<Id, Account>, id: Id, a: Account)
    requires UniqueEmails(accounts) && !EmailTaken(accounts, a.email)
    ensures UniqueEmails(accounts[id := a])
  {
  }

  ghost predicate SameEmails(before: map<Id, Account>, after: map<Id, Account>) {
    before.Keys == after.Keys && forall a :: a in before ==> after[a].email == before[a].email
  }

  lemma EmailsStay(before: map<Id, Account>, after: map<Id, Account>)
    requires UniqueEmails(before) && SameEmails(before, after)
    ensures UniqueEmails(after)
  {
    forall a, b | a in after && b in after && after[a].email == after[b].email ensures a == b {
      assert before[a].email == before[b].email;
    }
  }

  lemma ResetKeepsEmails(st: Auth, d: Id, request: string, payload: Id, hash: Id, now: int)
    ensures SameEmails(st.accounts, ConfirmReset(st, d, request, payload, hash, now).0.accounts)
  {
    hide ConfirmReset;
    ResetSpends(st, d, request, payload, hash, now);
    if ConfirmReset(st, d, request, payload, hash, now).1.ActionConsumed? {
      ResetResult(st, d, request, payload, hash, now);
    }
  }

  lemma StepKeepsEmails(st: Auth, op: Op)
    requires UniqueEmails(st.accounts)
    ensures UniqueEmails(Step(st, op).accounts)
  {
    hide Rotate, CreateSession, Register, ConfirmReset, ConfirmEmail, SetStatus, IssueForAccount, IssueForEmail,
         Logout, UniqueEmails;
    if LeavesPasswords(op) {
      PasswordsStay(st, op);
      EmailsStay(st.accounts, Step(st, op).accounts);
    } else if op.OpCreateSession? {
      CreateAccounts(st, op.account, op.expectedHash, op.session, op.installation, op.tokens, op.sessionExpiresAt,
                     op.now);
    } else if op.OpConfirmReset? {
      ResetKeepsEmails(st, op.digest, op.request, op.payload, op.hash, op.now);
      EmailsStay(st.accounts, Step(st, op).accounts);
    } else if op.OpUpdateHash? {
      EmailsStay(st.accounts, Step(st, op).accounts);
    } else if !EmailTaken(st.accounts, op.email) {
      NewEmail(st.accounts, op.id, Account(op.email, op.name, op.hash, Active, None, op.OpRegister?, op.now, op.now));
      if op.OpRegister? {
        RegisterResult(st, op.id, op.email, op.name, op.hash, op.session, op.installation, op.tokens,
                       op.sessionExpiresAt, op.now);
      }
    } else if op.OpRegister? {
      RegisterResult(st, op.id, op.email, op.name, op.hash, op.session, op.installation, op.tokens,
                     op.sessionExpiresAt, op.now);
    }
  }

  // Every step keeps valid tables valid.
  lemma StepIsValid(st: Auth, op: Op)
    requires IsValid(st)
    ensures IsValid(Step(st, op))
  {
    hide Step, Sound, OnePending, UniqueEmails, Usable, Consumes, Confirms, Issues;
    StepIsSound(st, op);
    StepActions(st, op, 0);
    StepKeepsEmails(st, op);
  }

  class Repository {
    var accounts: map<Id, Account>
    var sessions: map<Id, Session>
    var access: map<Id, Access>
    var refresh: map<Id, Refresh>
    var actions: map<Id, Action>
    var nextRow: nat

    function Contents(): Auth
      reads this
    {
      Auth(accounts, sessions, access, refresh, actions, nextRow)
    }

    ghost predicate Valid()
      reads this
    {
      IsValid(Contents())
    }

    constructor ()
      ensures Valid() && Contents() == EMPTY
    {
      accounts, sessions, access, refresh, actions, nextRow := map[], map[], map[], map[], map[], 0;
      new;
      EmptyIsValid();
      assert Contents() == EMPTY;
    }

    // A failed transaction is rolled back.
    method Rollback(saved: Auth)
      modifies this
      ensures Contents() == saved
    {
      accounts, sessions, access, refresh, actions, nextRow :=
        saved.accounts, saved.sessions, saved.access, saved.refresh, saved.actions, saved.nextRow;
    }

    // ---------- Retention ----------

    // _revoke_sessions
    method RevokeSessions(ids: seq<Id>, now: int)
      modifies this`sessions
      ensures sessions == Revoke(old(sessions), SetOf(ids), now)
    {
      NothingDropped(Contents(), now);
      assert SetOf(ids[..0]) == {};
      for i := 0 to |ids|
        invariant sessions == Revoke(old(sessions), SetOf(ids[..i]), now)
      {
        SetOfNext(ids, i);
        RevokeOneMore(old(sessions), SetOf(ids[..i]), ids[i], now);
        sessions := Revoke(sessions, {ids[i]}, now);
      }
      assert ids[..|ids|] == ids;
    }

    // _delete_session_tokens
    method DeleteSessionTokens(ids: seq<Id>)
      modifies this`access, this`refresh
      ensures Contents() == DropTokens(old(Contents()), SetOf(ids))
    {
      hide DropTokens;
      NothingDropped(Contents(), 0);
      assert SetOf(ids[..0]) == {};
      for i := 0 to |ids|
        invariant Contents() == DropTokens(old(Contents()), SetOf(ids[..i]))
      {
        SetOfNext(ids, i);
        DropOneMore(old(Contents()), SetOf(ids[..i]), ids[i]);
        ghost var before := Contents();
        access := map d | d in access && access[d].session != ids[i] :: access[d];
        refresh := map d | d in refresh && refresh[d].session != ids[i] :: refresh[d];
        DropOne(before, ids[i], Contents());
      }
      assert ids[..|ids|] == ids;
    }

    // _delete_sessions
    method DeleteSessions(ids: seq<Id>)
      modifies this`sessions, this`access, this`refresh
      ensures Contents() == DropSessions(old(Contents()), SetOf(ids))
    {
      hide DropTokens;
      DeleteSessionTokens(ids);
      assert SetOf(ids[..0]) == {};
      for i := 0 to |ids|
        invariant access == DropTokens(old(Contents()), SetOf(ids)).access
        invariant refresh == DropTokens(old(Contents()), SetOf(ids)).refresh
        invariant sessions == map s | s in old(sessions) && s !in SetOf(ids[..i]) :: old(sessions)[s]
      {
        SetOfNext(ids, i);
        sessions := map s | s in sessions && s != ids[i] :: sessions[s];
      }
      assert ids[..|ids|] == ids;
      DropKeepsRest(old(Contents()), SetOf(ids));
    }

    lemma DropKeepsRest(st: Auth, ids: set<Id>)
      ensures var after := DropTokens(st, ids);
              after.accounts == st.accounts && after.sessions == st.sessions && after.actions == st.actions
              && after.nextRow == st.nextRow
    {
    }

    // SELECT id …, in no particular order.
    method Select(ids: set<Id>) returns (q: seq<Id>)
      ensures SetOf(q) == ids
    {
      q := [];
      var rest := ids;
      while rest != {}
        invariant rest <= ids && SetOf(q) == ids - rest
        decreases |rest|
      {
        var x :| x in rest;
        SetOfAppend(q, x);
        q := q + [x];
        rest := rest - {x};
      }
    }

    // prune_stale_sessions
    method PruneStaleSessions(now: int)
      modifies this`sessions, this`access, this`refresh
      ensures Contents() == PruneStale(old(Contents()), now)
    {
      hide DropSessions, Revoke, ExpiredSessions, StaleSessions;
      sessions := Revoke(sessions, ExpiredSessions(sessions, now), now);
      var stale := Select(StaleSessions(sessions, now));
      DeleteSessions(stale);
    }

    // prune_expired_tokens
    method PruneExpiredTokens(now: int)
      modifies this`access, this`refresh
      ensures Contents() == PruneExpired(old(Contents()), now)
      // Whatever is left is live or needed by a retry, nothing that is was deleted, and a consumed
      // token that is left has its replacements.
      ensures OnlyUseful(Contents(), now) && KeepsUseful(old(Contents()), Contents(), now)
      ensures old(Families(refresh, access)) ==> ParentsKeepPairs(refresh, access)
    {
      hide IsPromised, IsRetryable, ParentsKeepPairs, Families, OnlyUseful, KeepsUseful;
      PrunedIsUseful(Contents(), now);
      if Families(refresh, access) {
        PruneExpiredPairs(Contents(), now);
      }
      refresh := map d | d in refresh && (refresh[d].consumed.Some? || refresh[d].expiresAt > now) :: refresh[d];
      refresh := map d | d in refresh && (refresh[d].consumed.None? || IsRetryable(refresh, d, now)) :: refresh[d];
      access := map a | a in access && (access[a].expiresAt > now || IsPromised(refresh, a, now)) :: access[a];
    }

    // prune_session_token_family
    method PruneSessionTokenFamily(session: Id, now: int)
      modifies this`access, this`refresh
      ensures Contents() == PruneFamily(old(Contents()), session, now)
    {
      hide Newest, KeptAccess, LiveStamps, ParentStamps, ProtectedAccess;
      LiveDiffer(refresh, session, now);
      var live := SelectNewestFirst(LiveStamps(refresh, session, now));
      var current := if live == [] then {} else {live[0]};
      FirstIsNewest(LiveStamps(refresh, session, now), live);
      ParentsDiffer(refresh, session, current);
      var parents := SelectNewestFirst(ParentStamps(refresh, session, current));
      var parent := if parents == [] then {} else {parents[0]};
      FirstIsNewest(ParentStamps(refresh, session, current), parents);
      var protected := ProtectedAccess(refresh, parent);
      var keep := KeepAccess(session, protected, now);
      refresh := map d | d in refresh && (refresh[d].session != session || d in current + parent) :: refresh[d];
      access := map a | a in access && (access[a].session != session || a in keep) :: access[a];
    }

    lemma LiveDiffer(refresh: map<Id, Refresh>, session: Id, now: int)
      ensures DistinctStamps(LiveStamps(refresh, session, now))
    {
    }

    lemma ParentsDiffer(refresh: map<Id, Refresh>, session: Id, current: set<Id>)
      ensures DistinctStamps(ParentStamps(refresh, session, current))
    {
    }

    // LIMIT 1
    lemma FirstIsNewest(stamps: map<Id, Stamp>, q: seq<Id>)
      requires NewestFirst(stamps, q)
      ensures Newest(stamps, 1) == if q == [] then {} else {q[0]}
    {
      PrefixIsNewest(stamps, q, 1);
      hide Newest, NewestFirst;
      if q != [] {
        assert q[..1] == [q[0]];
      }
    }

    // The loop over the access rows of the session.
    method KeepAccess(session: Id, protected: set<Id>, now: int) returns (keep: set<Id>)
      ensures keep == KeptAccess(access, session, protected, now)
    {
      hide Newest, NewestFirst, KeepsSoFar;
      var all := map a | a in access && access[a].session == session :: Stamp(access[a].createdAt, access[a].row, a);
      var rows := SelectNewestFirst(all);
      ghost var eligible := EligibleStamps(access, session, protected, now);
      keep := {};
      NothingKept(eligible, protected);
      assert rows[..0] == [];
      for i := 0 to |rows|
        invariant KeepsSoFar(eligible, protected, rows[..i], keep)
      {
        var digest := rows[i];
        RowsAreStamps(all, rows, i);
        KeepStep(all, eligible, protected, rows, i, keep);
        if access[digest].expiresAt > now || digest in protected {
          if |keep| < MAX_ACCESS_TOKENS || digest in protected {
            keep := keep + {digest};
          }
        }
      }
      assert rows[..|rows|] == rows;
      AllRows(all, rows);
      KeepsAtEnd(eligible, protected, rows, keep);
    }

    lemma NothingKept(eligible: map<Id, Stamp>, protected: set<Id>)
      ensures KeepsSoFar(eligible, protected, [], {})
    {
    }

    lemma RowsAreStamps(stamps: map<Id, Stamp>, q: seq<Id>, i: nat)
      requires NewestFirst(stamps, q) && i < |q|
      ensures q[i] in stamps
    {
      assert q[i] in q;
    }

    lemma AllRows(stamps: map<Id, Stamp>, q: seq<Id>)
      requires NewestFirst(stamps, q)
      ensures forall x :: x in stamps ==> x in q
    {
    }

    // trim_revoked_sessions
    method TrimRevokedSessions(account: Id)
      modifies this`sessions, this`access, this`refresh
      ensures Contents() == TrimRevoked(old(Contents()), account)
    {
      hide Newest, NewestFirst, DropSessions, RevokedStamps;
      RevokedDiffer(sessions, account);
      var rows := SelectNewestFirst(RevokedStamps(sessions, account));
      PrefixIsNewest(RevokedStamps(sessions, account), rows, MAX_RETAINED_REVOKED);
      DeleteSessions(rows[Min(MAX_RETAINED_REVOKED, |rows|)..]);
    }

    lemma RevokedDiffer(sessions: map<Id, Session>, account: Id)
      ensures DistinctStamps(RevokedStamps(sessions, account))
    {
    }

    lemma OpenDiffer(sessions: map<Id, Session>, account: Id)
      ensures DistinctStamps(OpenStamps(sessions, account))
    {
    }

    // prepare_new_session
    method PrepareNewSession(account: Id, installation: string, now: int)
      modifies this`sessions, this`access, this`refresh
      ensures Contents() == PrepareSession(old(Contents()), account, installation, now)
    {
      hide Newest, NewestFirst, DropTokens, Revoke, Replaced, OpenStamps, TrimRevoked;
      var replaced := Select(Replaced(sessions, account, installation));
      RevokeSessions(replaced, now);
      DeleteSessionTokens(replaced);
      assert Contents() == RevokeAndDrop(old(Contents()), Replaced(old(sessions), account, installation), now);
      OpenDiffer(sessions, account);
      var active := SelectNewestFirst(OpenStamps(sessions, account));
      PrefixIsNewest(OpenStamps(sessions, account), active, MAX_ACTIVE_SESSIONS - 1);
      var overflow := active[Min(MAX_ACTIVE_SESSIONS - 1, |active|)..];
      assert SetOf(overflow) == Overflow(sessions, account);
      RevokeSessions(overflow, now);
      DeleteSessionTokens(overflow);
      TrimRevokedSessions(account);
    }

    // ---------- Accounts ----------

    // _insert_account, or an IntegrityError
    method AddAccount(id: Id, email: string, name: string, hash: Id, required: bool, now: int) returns (ok: bool)
      modifies this`accounts
      ensures ok <==> InsertAccount(old(Contents()), id, email, name, hash, required, now).Some?
      ensures Contents() == if ok then InsertAccount(old(Contents()), id, email, name, hash, required,
                                                     now).value else old(Contents())
    {
      ok := !(id in accounts || EmailTaken(accounts, email));
      if ok {
        accounts := accounts[id := Account(email, name, hash, Active, None, required, now, now)];
      }
    }

    // _insert_session and _insert_tokens, or an IntegrityError
    method AddLogin(id: Id, account: Id, installation: string, tok: Tokens, expiresAt: int, now: int) returns (ok: bool)
      modifies this`sessions, this`access, this`refresh, this`nextRow
      ensures ok <==> InsertLogin(old(Contents()), id, account, installation, tok, expiresAt, now).Some?
      ensures ok ==> Contents() == InsertLogin(old(Contents()), id, account, installation, tok, expiresAt, now).value
    {
      if id in sessions {
        return false;
      }
      sessions := sessions[id := Session(account, installation, now, now, expiresAt, None)];
      ok := AddTokens(id, tok, now);
    }

    method AddTokens(session: Id, tok: Tokens, now: int) returns (ok: bool)
      modifies this`access, this`refresh, this`nextRow
      ensures ok <==> InsertTokens(old(Contents()), session, tok, now).Some?
      ensures ok ==> Contents() == InsertTokens(old(Contents()), session, tok, now).value
    {
      if tok.access in access {
        return false;
      }
      access := access[tok.access := Access(tok.accessNonce, session, now, tok.accessExpiresAt, nextRow)];
      if tok.refresh in refresh {
        return false;
      }
      refresh := refresh[tok.refresh := Refresh(tok.refreshNonce, session, now, tok.refreshExpiresAt, nextRow, None)];
      nextRow := nextRow + 1;
      return true;
    }

    // create_account
    method CreateAccount(id: Id, email: string, name: string, hash: Id, now: int) returns (r: AccountOutcome)
      requires Valid()
      modifies this
      ensures Valid()
      ensures (Contents(), r) == AuthMachine.CreateAccount(old(Contents()), id, email, name, hash, now)
    {
      assert IsValid(AuthMachine.CreateAccount(Contents(), id, email, name, hash, now).0) by {
        hide IsValid, AuthMachine.CreateAccount;
        StepIsValid(Contents(), OpCreateAccount(id, email, name, hash, now));
      }
      hide IsValid;
      var ok := AddAccount(id, email, name, hash, false, now);
      r := if ok then AccountCreated else DuplicateEmail;
    }

    // create_account_with_session
    method Register(id: Id, email: string, name: string, hash: Id, session: Id, installation: string,
                    tok: Tokens, sessionExpiresAt: int, now: int) returns (r: AccountOutcome)
      requires Valid()
      modifies this
      ensures Valid()
      ensures (Contents(), r) == AuthMachine.Register(old(Contents()), id, email, name, hash, session, installation,
                                                      tok, sessionExpiresAt, now)
    {
      assert IsValid(AuthMachine.Register(Contents(), id, email, name, hash, session, installation, tok, sessionExpiresAt, now).0) by {
        hide IsValid, AuthMachine.Register;
        StepIsValid(Contents(), OpRegister(id, email, name, hash, session, installation, tok, sessionExpiresAt, now));
      }
      hide IsValid, PruneStale, PruneExpired, InsertLogin;
      var saved := Contents();
      var ok := AddAccount(id, email, name, hash, true, now);
      if ok {
        PruneStaleSessions(now);
        PruneExpiredTokens(now);
        ok := AddLogin(session, id, installation, tok, sessionExpiresAt, now);
      }
      if !ok {
        Rollback(saved);
        return if EmailTaken(accounts, email) then DuplicateEmail else AccountIdTaken;
      }
      r := AccountCreated;
    }

    // update_password_hash
    method UpdatePasswordHash(account: Id, encoded: Id, expected: Option<Id>, now: int) returns (updated: bool)
      requires Valid()
      modifies this
      ensures Valid()
      ensures (Contents(), updated) == UpdateHash(old(Contents()), account, encoded, expected, now)
    {
      assert IsValid(AuthMachine.UpdateHash(Contents(), account, encoded, expected, now).0) by {
        hide IsValid, AuthMachine.UpdateHash;
        StepIsValid(Contents(), OpUpdateHash(account, encoded, expected, now));
      }
      hide IsValid;
      if account !in accounts {
        return expected.None?;
      }
      var a := accounts[account];
      if expected.Some? && (a.passwordHash != expected.value || !a.status.Active?) {
        return false;
      }
      accounts := accounts[account := a.(passwordHash := encoded, updatedAt := now)];
      return true;
    }

    // set_account_status
    method SetAccountStatus(account: Id, status: Status, now: int)
      requires Valid()
      modifies this
      ensures Valid()
      ensures Contents() == SetStatus(old(Contents()), account, status, now)
    {
      assert IsValid(AuthMachine.SetStatus(Contents(), account, status, now)) by {
        hide IsValid, AuthMachine.SetStatus;
        StepIsValid(Contents(), OpSetStatus(account, status, now));
      }
      hide IsValid, Revoke;
      if account in accounts {
        accounts := accounts[account := accounts[account].(status := status, updatedAt := now)];
      }
      if !status.Active? {
        sessions := Revoke(sessions, OpenOf(sessions, account), now);
      }
    }

    // ---------- Sessions ----------

    // create_session
    method CreateSession(account: Id, expected: Id, session: Id, installation: string, tok: Tokens,
                         sessionExpiresAt: int, now: int) returns (r: SessionOutcome)
      requires Valid()
      modifies this
      ensures Valid()
      ensures (Contents(), r) == AuthMachine.CreateSession(old(Contents()), account, expected, session, installation,
                                                           tok, sessionExpiresAt, now)
    {
      assert IsValid(AuthMachine.CreateSession(Contents(), account, expected, session, installation, tok, sessionExpiresAt, now).0) by {
        hide IsValid, AuthMachine.CreateSession;
        StepIsValid(Contents(), OpCreateSession(account, expected, session, installation, tok, sessionExpiresAt, now));
      }
      hide IsValid, PruneStale, PruneExpired, PrepareSession, InsertLogin;
      var saved := Contents();
      if account !in accounts || !accounts[account].status.Active? || accounts[account].passwordHash != expected {
        return CredentialsChanged;
      }
      PruneStaleSessions(now);
      PruneExpiredTokens(now);
      PrepareNewSession(account, installation, now);
      var ok := AddLogin(session, account, installation, tok, sessionExpiresAt, now);
      if !ok {
        Rollback(saved);
        return IdTaken;
      }
      r := SessionOpened;
    }

    // authenticate_access
    method AuthenticateAccess(digest: Id, now: int) returns (r: AccessOutcome)
      requires Valid()
      ensures r == Authenticate(Contents(), digest, now)
      ensures r.Authenticated? <==>
                exists s, a :: IsHeld(Contents(), digest, s, a) && now < access[digest].expiresAt && now < sessions[s].expiresAt
      ensures r.Authenticated? ==> IsHeld(Contents(), digest, r.session, r.account)
    {
      hide IsValid;
      forall s, a {
        AccessAnswers(Contents(), digest, now, a, s);
      }
      if digest !in access || access[digest].session !in sessions {
        return AccessInvalid;
      }
      var t := access[digest];
      var s := sessions[t.session];
      if s.account !in accounts || s.revokedAt.Some? || !accounts[s.account].status.Active? {
        return AccessInvalid;
      }
      if t.expiresAt <= now || s.expiresAt <= now {
        return AccessExpired;
      }
      return Authenticated(s.account, t.session);
    }

    // revoke_session_by_access
    method RevokeSessionByAccess(digest: Id, now: int)
      requires Valid()
      modifies this
      ensures Valid()
      ensures Contents() == Logout(old(Contents()), digest, now)
    {
      assert IsValid(AuthMachine.Logout(Contents(), digest, now)) by {
        hide IsValid, AuthMachine.Logout;
        StepIsValid(Contents(), OpLogout(digest, now));
      }
      hide IsValid, Revoke;
      if digest in access {
        sessions := Revoke(sessions, {access[digest].session}, now);
      }
    }

    // The branches of rotate_refresh for a token that was consumed before.
    method RetryRefresh(digest: Id, request: string, now: int) returns (r: RefreshOutcome)
      requires IsJoined(Contents(), digest) && refresh[digest].consumed.Some?
      modifies this`sessions
      ensures (Contents(), r) == Retry(old(Contents()), digest, request, now)
    {
      hide Revoke;
      var id := refresh[digest].session;
      var s, used := sessions[id], refresh[digest].consumed.value;
      if used.requestId == request {
        if s.revokedAt.Some? || !accounts[s.account].status.Active? || s.expiresAt <= now {
          return RefreshExpired;
        }
        if used.access !in access || used.refresh !in refresh {
          return ReplacementMissing;
        }
        var a, next := access[used.access], refresh[used.refresh];
        if next.consumed.Some? {
          sessions := Revoke(sessions, {id}, now);
          return Replayed;
        }
        if next.expiresAt <= now {
          return RefreshExpired;
        }
        return Repeated(Pair(id, s.expiresAt, a.nonce, next.nonce, a.expiresAt, next.expiresAt));
      }
      sessions := Revoke(sessions, {id}, now);
      return Replayed;
    }

    // The branch of rotate_refresh that exchanges a live token.
    method RenewRefresh(digest: Id, request: string, tok: Tokens, now: int) returns (r: RefreshOutcome)
      requires IsJoined(Contents(), digest)
      modifies this`sessions, this`access, this`refresh, this`nextRow
      ensures r == Renew(old(Contents()), digest, request, tok, now).1
      ensures r.Rotated? ==> Contents() == Renew(old(Contents()), digest, request, tok, now).0
    {
      hide PruneFamily, PruneExpired, InsertTokens;
      var id := refresh[digest].session;
      var sessionExpiresAt := sessions[id].expiresAt;
      var capped := Capped(tok, sessionExpiresAt);
      refresh := refresh[digest := refresh[digest].(consumed := Some(Consumption(now, request, tok.refresh, tok.access)))];
      var ok := AddTokens(id, capped, now);
      if !ok {
        return DigestTaken;
      }
      PruneSessionTokenFamily(id, now);
      PruneExpiredTokens(now);
      sessions := sessions[id := sessions[id].(lastSeenAt := now)];
      return Rotated(Pair(id, sessionExpiresAt, tok.accessNonce, tok.refreshNonce, capped.accessExpiresAt, capped.refreshExpiresAt));
    }

    // rotate_refresh
    method RotateRefresh(digest: Id, installation: string, request: string, tok: Tokens,
                         now: int) returns (r: RefreshOutcome)
      requires Valid()
      modifies this
      ensures Valid()
      ensures (Contents(), r) == Rotate(old(Contents()), digest, installation, request, tok, now)
      ensures IsRefreshAnswer(old(Contents()), digest, installation, request, tok, now, r)
      ensures !r.ReplacementMissing? && !r.Unavailable?
    {
      hide IsValid, PruneStale, PruneExpired, PruneFamily, Retry, Renew, OnlyUseful, KeepsUseful, Families,
           ParentsKeepPairs, IsRefreshAnswer;
      RotateIsValid(Contents(), digest, installation, request, tok, now);
      RenewEither(PruneStale(Contents(), now), digest, request, tok, now);
      var saved := Contents();
      PruneStaleSessions(now);
      if !IsJoined(Contents(), digest) {
        PruneExpiredTokens(now);
        return UnknownToken;
      }
      var t := refresh[digest];
      var s := sessions[t.session];
      if s.installation != installation {
        return WrongInstallation;
      }
      if t.consumed.Some? {
        r := RetryRefresh(digest, request, now);
        return;
      }
      if s.revokedAt.Some? || t.expiresAt <= now || s.expiresAt <= now {
        PruneSessionTokenFamily(t.session, now);
        PruneExpiredTokens(now);
        return RefreshExpired;
      }
      if !accounts[s.account].status.Active? {
        return Unavailable;
      }
      r := RenewRefresh(digest, request, tok, now);
      if r.DigestTaken? {
        Rollback(saved);
      }
    }

    lemma RotateIsValid(st: Auth, digest: Id, installation: string, request: string, tok: Tokens, now: int)
      requires IsValid(st)
      ensures var r := Rotate(st, digest, installation, request, tok, now);
              && IsValid(r.0) && !r.1.ReplacementMissing? && !r.1.Unavailable?
              && IsRefreshAnswer(st, digest, installation, request, tok, now, r.1)
    {
      hide Sound, Rotate, OnePending, UniqueEmails, IsRefreshAnswer;
      RefreshAnswers(st, digest, installation, request, tok, now);
      StepIsValid(st, OpRotate(digest, installation, request, tok, now));
      RotateIsSound(st, digest, installation, request, tok, now);
    }

    lemma RenewEither(st: Auth, digest: Id, request: string, tok: Tokens, now: int)
      ensures IsJoined(st, digest) ==>
                Renew(st, digest, request, tok, now).1.Rotated? || Renew(st, digest, request, tok, now).1.DigestTaken?
    {
      if IsJoined(st, digest) {
        RenewOutcome(st, digest, request, tok, now);
      }
    }

    // ---------- Action tokens ----------

    // _issue, or an IntegrityError
    method IssueToken(account: Id, purpose: Purpose, digest: Id, nonce: Id, expiresAt: int,
                      now: int) returns (r: IssueOutcome)
      modifies this`actions
      ensures (Contents(), r) == IssueOrFail(old(Contents()), account, purpose, digest, nonce, expiresAt, now)
    {
      hide Supersede, PruneActions;
      var saved := actions;
      actions := Supersede(PruneActions(actions, now), account, purpose, {}, now);
      if digest in actions {
        actions := saved;
        return ActionDigestTaken;
      }
      actions := actions[digest := Action(nonce, account, purpose, now, expiresAt, None, None)];
      return AuthMachine.Issued(account);
    }

    // issue_for_account
    method IssueForAccount(account: Id, purpose: Purpose, digest: Id, nonce: Id, expiresAt: int,
                           now: int) returns (r: IssueOutcome)
      requires Valid()
      modifies this
      ensures Valid()
      ensures (Contents(), r) == AuthMachine.IssueForAccount(old(Contents()), account, purpose, digest, nonce,
                                                             expiresAt, now)
    {
      assert IsValid(AuthMachine.IssueForAccount(Contents(), account, purpose, digest, nonce, expiresAt, now).0) by {
        hide IsValid, AuthMachine.IssueForAccount;
        StepIsValid(Contents(), OpIssueForAccount(account, purpose, digest, nonce, expiresAt, now));
      }
      hide IsValid, IssueOrFail;
      if account !in accounts || !accounts[account].status.Active? {
        return NothingIssued;
      }
      if purpose.EmailVerification? && accounts[account].verifiedAt.Some? {
        return NothingIssued;
      }
      r := IssueToken(account, purpose, digest, nonce, expiresAt, now);
    }

    lemma NobodyActive(accounts: map<Id, Account>, email: string)
      requires ActiveMatches(accounts, email) == {}
      ensures ActiveAccount(accounts, email) == None
    {
      assert forall a :: a in accounts && accounts[a].email == email && accounts[a].status.Active? ==>
                           a in ActiveMatches(accounts, email);
    }

    lemma OnlyActive(accounts: map<Id, Account>, email: string, account: Id)
      requires UniqueEmails(accounts)
      requires account in accounts && accounts[account].email == email && accounts[account].status.Active?
      ensures ActiveAccount(accounts, email) == Some(account)
    {
    }

    lemma IssuedIsValid(st: Auth, email: string, purpose: Purpose, digest: Id, nonce: Id, expiresAt: int, now: int)
      requires IsValid(st)
      ensures IsValid(AuthMachine.IssueForEmail(st, email, purpose, digest, nonce, expiresAt, now).0)
    {
      hide IsValid, AuthMachine.IssueForEmail;
      StepIsValid(st, OpIssueForEmail(email, purpose, digest, nonce, expiresAt, now));
    }

    // issue_for_email
    method IssueForEmail(email: string, purpose: Purpose, digest: Id, nonce: Id, expiresAt: int,
                         now: int) returns (r: IssueOutcome)
      requires Valid()
      modifies this
      ensures Valid()
      ensures (Contents(), r) == AuthMachine.IssueForEmail(old(Contents()), email, purpose, digest, nonce, expiresAt, now)
    {
      IssuedIsValid(Contents(), email, purpose, digest, nonce, expiresAt, now);
      hide Sound, OnePending, IssueOrFail, PruneActions;
      var matching := ActiveMatches(accounts, email);
      if matching == {} {
        NobodyActive(accounts, email);
        actions := PruneActions(actions, now);
        return NothingIssued;
      }
      var account :| account in matching;
      OnlyActive(accounts, email, account);
      r := IssueToken(account, purpose, digest, nonce, expiresAt, now);
    }

    // confirm_email
    method ConfirmEmail(digest: Id, account: Id, request: string, payload: Id, now: int) returns (r: ActionOutcome)
      requires Valid()
      modifies this
      ensures Valid()
      ensures (Contents(), r) == AuthMachine.ConfirmEmail(old(Contents()), digest, account, request, payload, now)
      ensures IsAnswer(old(Contents()), digest, EmailVerification, Some(account), request, payload, now, r)
    {
      EmailAnswers(Contents(), digest, account, request, payload, now);
      hide IsAnswer;
      assert IsValid(AuthMachine.ConfirmEmail(Contents(), digest, account, request, payload, now).0) by {
        hide IsValid, AuthMachine.ConfirmEmail;
        StepIsValid(Contents(), OpConfirmEmail(digest, account, request, payload, now));
      }
      hide IsValid;
      var state := StateOf(Contents(), digest, EmailVerification, Some(account), request, payload, now);
      if !state.TokenActive? {
        return Refusal(state, account);
      }
      var a := accounts[account];
      accounts := accounts[account := a.(verifiedAt := if a.verifiedAt.Some? then a.verifiedAt else Some(now), updatedAt := now)];
      actions := MarkUsed(actions, digest, Use(now, request, payload));
      return ActionConsumed(account);
    }

    // The statements of a reset up to the last one.
    method ResetRows(account: Id, digest: Id, request: string, payload: Id, hash: Id, now: int)
      requires account in accounts
      modifies this
      ensures Contents() == ResetPassword(old(Contents()), account, digest, request, payload, hash, now)
    {
      hide Revoke, OpenOf, SessionsOf, MarkUsed;
      accounts := accounts[account := accounts[account].(passwordHash := hash, updatedAt := now)];
      var all := SessionsOf(sessions, account);
      sessions := Revoke(sessions, OpenOf(sessions, account), now);
      access := map d | d in access && access[d].session !in all :: access[d];
      refresh := map d | d in refresh && refresh[d].session !in all :: refresh[d];
      actions := MarkUsed(actions, digest, Use(now, request, payload));
    }

    lemma ActiveToken(st: Auth, digest: Id, request: string, payload: Id, now: int)
      requires StateOf(st, digest, PasswordReset, None, request, payload, now).TokenActive?
      ensures digest in st.actions && st.actions[digest].account in st.accounts
    {
    }

    // confirm_password_reset
    method ConfirmPasswordReset(digest: Id, request: string, payload: Id, hash: Id, now: int) returns (r: ActionOutcome)
      requires Valid()
      modifies this
      ensures Valid()
      ensures (Contents(), r) == ConfirmReset(old(Contents()), digest, request, payload, hash, now)
      ensures IsAnswer(old(Contents()), digest, PasswordReset, None, request, payload, now, r)
    {
      ResetAnswers(Contents(), digest, request, payload, hash, now);
      hide IsAnswer;
      assert IsValid(AuthMachine.ConfirmReset(Contents(), digest, request, payload, hash, now).0) by {
        hide IsValid, AuthMachine.ConfirmReset;
        StepIsValid(Contents(), OpConfirmReset(digest, request, payload, hash, now));
      }
      hide IsValid, ResetPassword, StateOf, Supersede, Refusal;
      var state := StateOf(Contents(), digest, PasswordReset, None, request, payload, now);
      if !state.TokenActive? {
        return Refusal(state, ActionAccount(Contents(), digest));
      }
      ActiveToken(Contents(), digest, request, payload, now);
      var account := actions[digest].account;
      ResetRows(account, digest, request, payload, hash, now);
      actions := Supersede(actions, account, PasswordReset, {digest}, now);
      return ActionConsumed(account);
    }
  }
}
