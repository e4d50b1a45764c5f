/** What a v1 client misses and what it gets: the rows that change through v2 between two of its
    polls. */
module V1Polls {
  import opened Basics
  import opened SyncTypes
  import opened Canonical
  import opened Authority
  import opened Projection
  import opened V1Bridge
  import opened SyncState
  import opened SyncInvariant
  import opened SyncRuns
  import opened Lockstep
  import opened Cutover
  import opened Acceptance
  import opened FlatRows

  // No row is gone, and every row that is new or different is later than this time.
  ghost predicate ChangesAreLater(before: Comics, after: Comics, since: int) {
    && before.Keys <= after.Keys
    && forall id :: id in after ==> (id in before && after[id] == before[id]) || after[id].updatedAt > since
  }

  lemma LaterTransitive(a: Comics, b: Comics, c: Comics, since: int)
    requires ChangesAreLater(a, b, since) && ChangesAreLater(b, c, since)
    ensures ChangesAreLater(a, c, since)
  {
  }

  lemma NothingChanges(comics: Comics, since: int)
    ensures ChangesAreLater(comics, comics, since)
  {
  }

  lemma RefreshIsLater(es: Entities, comics: Comics, issue: string, now: int, since: int)
    requires WellKeyed(es) && ValidEntities(es) && ValidComics(comics) && issue != [] && now > since
    requires Refresh(es, comics, issue, now).Ok?
    ensures ChangesAreLater(comics, Refresh(es, comics, issue, now).value, since)
  {
    hide Refresh, WellKeyed, ValidEntities, ValidComics, HasRow, ShowsIssue, ShowsEntry, ShowsCopies;
    if |issue| <= 64 {
      RefreshedRow(es, comics, issue, now);
    } else {
      RefreshedLongRow(es, comics, issue, now);
    }
  }

  lemma {:induction false} RefreshAllIsLater(es: Entities, comics: Comics, issues: seq<string>, now: nat, since: int)
    requires WellKeyed(es) && ValidEntities(es) && ValidComics(comics) && now > since
    requires (forall i :: i in issues ==> i != []) && RefreshAll(es, comics, issues, now).Ok?
    ensures ChangesAreLater(comics, RefreshAll(es, comics, issues, now).value, since)
  {
    hide Refresh, WellKeyed, ValidEntities, ValidComics, ChangesAreLater;
    if issues == [] {
      NothingChanges(comics, since);
    } else {
      var init, last := issues[..|issues| - 1], issues[|issues| - 1];
      assert last in issues && forall i :: i in init ==> i in issues;
      RefreshAllStep(es, comics, issues, now);
      RefreshAllIsLater(es, comics, init, now, since);
      RefreshAllKeepsValid(es, comics, init, now);
      var done := RefreshAll(es, comics, init, now).value;
      RefreshIsLater(es, done, last, now, since);
      LaterTransitive(comics, done, Refresh(es, done, last, now).value, since);
    }
  }

  lemma DeliverIsLater(env: Env, core: Core, m: Mutation, now: nat, since: int)
    requires GoodCore(env, core) && ValidMutation(m) && !IdReused(core, m) && now > since
    requires Deliver(env, core, m, now).Ok?
    ensures ChangesAreLater(core.comics, Deliver(env, core, m, now).value.0.comics, since)
  {
    hide GoodCore, ValidMutation, IdReused, Canonicalize, CopyAuthority, ValidEntities, ValidComics, Record, RefreshAll,
         Affected, AllValidBodies, ChangesAreLater, RecordGroup;
    if m.id in core.receipts {
      NothingChanges(core.comics, since);
    } else {
      DeliverIsRecording(env, core, m, now);
      var after := Deliver(env, core, m, now).value.0;
      var issues := SortedTexts(Affected(Canonicalize(core.entities, m.changes).value));
      forall i | i in issues ensures i != [] {
        AffectedIssues(core.entities, m.changes, i);
      }
      RefreshAllIsLater(after.entities, core.comics, issues, now, since);
    }
  }

  lemma {:induction false} DeliverAllIsLater(env: Env, core: Core, ms: seq<Mutation>, now: nat, since: int)
    requires GoodCore(env, core) && Deliverable(core, ms) && now > since && DeliverAll(env, core, ms, now).Ok?
    ensures ChangesAreLater(core.comics, DeliverAll(env, core, ms, now).value.core.comics, since)
  {
    hide GoodCore, Deliverable, Deliver, ValidMutation, IdReused, DistinctMutations, Grew, Answered, ChangesAreLater;
    if ms == [] {
      NothingChanges(core.comics, since);
    } else {
      var init, last := ms[..|ms| - 1], ms[|ms| - 1];
      DeliverablePrefix(core, ms);
      DeliverableLast(core, ms);
      DeliverAllIsLater(env, core, init, now, since);
      DeliverAllKeeps(env, core, init, now);
      var done := DeliverAll(env, core, init, now).value.core;
      StillFresh(core, done, ms);
      DeliverIsLater(env, done, last, now, since);
      LaterTransitive(core.comics, done.comics, Deliver(env, done, last, now).value.0.comics, since);
    }
  }

  // Either v1 writes change nothing any more, or none is among the calls; the clock has passed
  // this time.
  ghost predicate ClientsWriteLater(st: State, calls: seq<Call>, since: int) {
    forall i :: 0 <= i < |calls| ==> if calls[i].V1? then st.core.activated else calls[i].now > since
  }

  lemma StepIsLater(env: Env, serverId: string, st: State, call: Call, since: int)
    requires GoodState(env, st) && ValidEnv(env) && if call.V1? then st.core.activated else call.now > since
    ensures ChangesAreLater(st.core.comics, Step(env, serverId, st, call).core.comics, since)
    ensures st.core.activated ==> Step(env, serverId, st, call).core.activated
  {
    hide GoodCore, GoodCache, ValidEnv, SyncV1, Execute, ChangesAreLater, Truthful, Answered;
    NothingChanges(st.core.comics, since);
    if st.core.activated {
      StepKeepsActivation(env, serverId, st, call);
    }
    if call.V2? && Computed(env, serverId, st, call.request, call.now) {
      StateIsGood(env, st);
      ExecuteIsLater(env, serverId, st.core, call.request, call.now, since);
    }
  }

  lemma ExecuteIsLater(env: Env, serverId: string, core: Core, req: Request, now: nat, since: int)
    requires GoodCore(env, core) && ValidRequest(req) && req.cursor <= |core.log| && now > since
    requires Execute(env, serverId, core, req, now).Ok?
    ensures ChangesAreLater(core.comics, Execute(env, serverId, core, req, now).value.0.comics, since)
  {
    hide GoodCore, Deliverable, DeliverAll, ChangesAreLater, Truthful, Answered, Grew;
    ExecuteKeeps(env, serverId, core, req, now);
    DeliverAllIsLater(env, core, req.mutations, now, since);
  }

  lemma {:induction false} RunIsLater(env: Env, serverId: string, st: State, calls: seq<Call>, since: int)
    requires GoodState(env, st) && ValidEnv(env) && ClientsWriteLater(st, calls, since)
    ensures ChangesAreLater(st.core.comics, Run(env, serverId, st, calls).core.comics, since)
    ensures st.core.activated ==> Run(env, serverId, st, calls).core.activated
  {
    hide GoodState, ValidEnv, Step, ChangesAreLater;
    if calls == [] {
      NothingChanges(st.core.comics, since);
    } else {
      var init, last := calls[..|calls| - 1], calls[|calls| - 1];
      assert forall i :: 0 <= i < |init| ==> init[i] == calls[i];
      RunIsLater(env, serverId, st, init, since);
      RunKeeps(env, serverId, st, init);
      var mid := Run(env, serverId, st, init);
      StepIsLater(env, serverId, mid, last, since);
      LaterTransitive(st.core.comics, mid.core.comics, Step(env, serverId, mid, last).core.comics, since);
    }
  }

  // What a client's rows are once it has applied an answer.
  function Applied(rows: Comics, answer: seq<Comic>): Comics {
    if answer == [] then rows
    else Applied(rows, answer[..|answer| - 1])[answer[|answer| - 1].id := answer[|answer| - 1]]
  }

  ghost predicate EachOnce(answer: seq<Comic>) {
    forall i, j :: 0 <= i < j < |answer| ==> answer[i].id != answer[j].id
  }

  lemma LastIsNew(answer: seq<Comic>)
    requires EachOnce(answer) && answer != []
    ensures var init, last := answer[..|answer| - 1], answer[|answer| - 1];
            && EachOnce(init) && (forall c :: c in init ==> c.id != last.id)
            && forall c :: c in answer <==> c in init || c == last
  {
    var init, last := answer[..|answer| - 1], answer[|answer| - 1];
    assert answer == init + [last];
    forall c | c in init ensures c.id != last.id {
      var i :| 0 <= i < |init| && init[i] == c;
      assert answer[i].id != answer[|answer| - 1].id;
    }
  }

  lemma {:induction false} AppliedAt(rows: Comics, answer: seq<Comic>, id: string)
    requires EachOnce(answer)
    ensures id in Applied(rows, answer) <==> id in rows || exists c :: c in answer && c.id == id
    ensures forall c :: c in answer && c.id == id ==> Applied(rows, answer)[id] == c
    ensures id in rows && (forall c :: c in answer ==> c.id != id) ==> Applied(rows, answer)[id] == rows[id]
  {
    hide EachOnce;
    if answer != [] {
      LastIsNew(answer);
      AppliedAt(rows, answer[..|answer| - 1], id);
    }
  }

  // A v1 client that had every row after one poll has every row after the next, whatever v2
  // clients write in between, if the clock of the server has passed the time its first poll was
  // answered with.
  lemma NextPollBringsChanges(env: Env, serverId: string, st: State, calls: seq<Call>, since: int, now: nat,
                              next: V1Answer)
    requires GoodState(env, st) && ValidEnv(env) && ClientsWriteLater(st, calls, since)
    requires IsV1Answer(Run(env, serverId, st, calls).core.comics, since, now, next)
    ensures Applied(st.core.comics, next.rows) == Run(env, serverId, st, calls).core.comics
  {
    hide GoodCore, GoodCache, ValidEnv, Step, Applied;
    RunIsLater(env, serverId, st, calls, since);
    RunKeeps(env, serverId, st, calls);
    var before, after := st.core.comics, Run(env, serverId, st, calls).core.comics;
    RowsAreNamed(env, Run(env, serverId, st, calls));
    forall id ensures id in Applied(before, next.rows) <==> id in after
              ensures id in after ==> Applied(before, next.rows)[id] == after[id] {
      AppliedAt(before, next.rows, id);
      if id in after && after[id].updatedAt > since {
        assert after[id] in next.rows;
      }
    }
  }

  lemma RowsAreNamed(env: Env, st: State)
    requires GoodState(env, st)
    ensures forall id :: id in st.core.comics ==> st.core.comics[id].id == id
  {
    hide GoodHistory, GoodTables, GoodCache, ValidComic;
  }

  // When the next poll brings the row that one refresh writes: when the clock has passed the time
  // of the last poll, or the row had.
  lemma RefreshIsSeenIff(es: Entities, comics: Comics, issue: string, now: int, since: nat, later: nat, next: V1Answer)
    requires WellKeyed(es) && ValidEntities(es) && ValidComics(comics) && 0 < |issue| <= 64
    requires Refresh(es, comics, issue, now).Ok? && HasRow(es, comics, issue)
    requires IsV1Answer(Refresh(es, comics, issue, now).value, since, later, next)
    ensures var after := Refresh(es, comics, issue, now).value;
            && issue in after
            && (after[issue] in next.rows <==>
                  now > since || if issue in comics then comics[issue].updatedAt >= since else since == 0)
  {
    hide Refresh, WellKeyed, ValidEntities, ValidComics, HasRow, ShowsIssue, ShowsEntry, ShowsCopies;
    RefreshedRow(es, comics, issue, now);
    var existing := ExistingRow(comics, issue);
    assert MayBeNext(existing, now, Max(now, if existing.Some? then existing.value.updatedAt + 1 else 1));
  }

  // ---------- What the rows say after any run ----------

  // In every reachable state the row of every issue a client has changed tells the issue, the
  // entry and the copies the server stores, field by field, and there is none without an entry;
  // ids of more than 64 characters and the rows they land on apart.
  lemma RowsTellEntities(env: Env, serverId: string, comics: Comics, calls: seq<Call>, issue: string)
    requires ValidEnv(env) && ValidComics(comics) && Opened(env, comics).Ok?
    ensures var core := Run(env, serverId, State(Opened(env, comics).value, []), calls).core;
            WellKeyed(core.entities) &&
            (Touched(core, issue) && |issue| <= 64 && !Overwritten(core, issue) ==>
               if Key(CollectionEntry, issue) !in core.entities then issue !in core.comics
               else issue in core.comics && ShowsIssue(core.entities, issue, core.comics[issue])
                    && ShowsEntry(core.entities, issue, core.comics[issue])
                    && ShowsCopies(core.entities, issue, core.comics[issue]))
  {
    hide ValidEnv, ValidComics, Opened, Step, V1Phase, RowAgrees, Touched, Overwritten, GoodCore, GoodCache, WellKeyed,
         ShowsIssue, ShowsEntry, ShowsCopies;
    RowsFollowEntities(env, serverId, comics, calls);
    OpenedRunIsGood(env, serverId, comics, calls);
    var core := Run(env, serverId, State(Opened(env, comics).value, []), calls).core;
    GoodIsWellKeyed(env, core);
    if Touched(core, issue) && |issue| <= 64 && !Overwritten(core, issue) {
      AgreeingRowTells(core.entities, core.comics, issue);
    }
  }

  lemma AgreeingRowTells(es: Entities, comics: Comics, issue: string)
    requires WellKeyed(es) && RowAgrees(es, comics, issue)
    ensures if Key(CollectionEntry, issue) !in es then issue !in comics
            else issue in comics && ShowsIssue(es, issue, comics[issue]) && ShowsEntry(es, issue, comics[issue])
                 && ShowsCopies(es, issue, comics[issue])
  {
    hide ViewOf, Shows, WellKeyed, ShowsIssue, ShowsEntry, ShowsCopies;
    EntryOfView(es, issue);
    if Key(CollectionEntry, issue) in es {
      ShownRow(es, issue, comics[issue]);
    }
  }
}
