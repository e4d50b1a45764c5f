/** After activation the flat v1 table is the projection of the entities: which rows agree, in
    every run, and when a projection is refused. */
module Cutover {
  import opened Basics
  import opened SyncTypes
  import opened Canonical
  import opened Authority
  import opened Projection
  import opened V1Bridge
  import opened Paging
  import opened RequestCache
  import opened SyncState
  import opened SyncInvariant
  import opened SyncRuns
  import opened Lockstep

  // ---------- One projected issue ----------

  predicate HasEntry(es: Entities, issue: string) {
    Key(CollectionEntry, issue) in es
  }

  // Long ids are cut when their row is written, so they land on the row of another issue.
  predicate LandsOn(issue: string, row: string) {
    Cut(issue, 64) == row
  }

  ghost predicate Projectable(es: Entities) {
    WellKeyed(es) && IssuesDescribed(es) && ValidEntities(es)
  }

  lemma EntryOfView(es: Entities, issue: string)
    requires WellKeyed(es)
    ensures ViewOf(es, issue).entry.Some? <==> HasEntry(es, issue)
  {
  }

  // What one refresh does to the rows.
  lemma RefreshOne(es: Entities, comics: Comics, issue: string, now: nat)
    requires Projectable(es) && ValidComics(comics) && issue != [] && Refresh(es, comics, issue, now).Ok?
    ensures var r := Refresh(es, comics, issue, now).value;
            && ValidComics(r)
            && (forall id :: !LandsOn(issue, id) ==> ExistingRow(r, id) == ExistingRow(comics, id))
            && (!HasEntry(es, issue) && issue !in comics ==> r == comics)
            && (forall id :: id in r ==> id in comics || (LandsOn(issue, id) && HasEntry(es, issue)))
  {
    hide Row, ValidComic, IssuesDescribed, ViewIssue;
    RefreshEffect(es, comics, issue, now);
    EntryOfView(es, issue);
    if issue in comics {
      RowKeysAreShort(comics, issue);
    }
  }

  // A refreshed issue agrees with its row, unless a row stood there without any entry.
  lemma RefreshShows(es: Entities, comics: Comics, issue: string, now: nat)
    requires Projectable(es) && ValidComics(comics) && 0 < |issue| <= 64
    requires Refresh(es, comics, issue, now).Ok? && (issue in comics ==> HasEntry(es, issue))
    ensures RowAgrees(es, Refresh(es, comics, issue, now).value, issue)
  {
    hide Row, ValidComic, IssuesDescribed, ViewIssue;
    RefreshEffect(es, comics, issue, now);
    EntryOfView(es, issue);
    if HasEntry(es, issue) {
      EntryProjects(es, issue);
    }
  }

  // ---------- The issues of a group, one after the other ----------

  lemma RefreshAllStep(es: Entities, comics: Comics, issues: seq<string>, now: nat)
    requires issues != [] && RefreshAll(es, comics, issues, now).Ok?
    ensures var init := RefreshAll(es, comics, issues[..|issues| - 1], now);
            && init.Ok?
            && Refresh(es, init.value, issues[|issues| - 1], now) == RefreshAll(es, comics, issues, now)
  {
  }

  lemma {:induction false} RefreshAllRows(es: Entities, comics: Comics, issues: seq<string>, now: nat)
    requires Projectable(es) && ValidComics(comics) && (forall i :: i in issues ==> i != [])
    requires RefreshAll(es, comics, issues, now).Ok?
    ensures var r := RefreshAll(es, comics, issues, now).value;
            && ValidComics(r)
            && forall id :: id in r ==> id in comics || exists j :: j in issues && LandsOn(j, id) && HasEntry(es, j)
  {
    hide Refresh, Projectable, ValidComics, LandsOn, HasEntry;
    if issues != [] {
      var init, last := issues[..|issues| - 1], issues[|issues| - 1];
      RefreshAllStep(es, comics, issues, now);
      assert last in issues && forall i :: i in init ==> i in issues;
      RefreshAllRows(es, comics, init, now);
      RefreshOne(es, RefreshAll(es, comics, init, now).value, last, now);
    }
  }

  // A row on which only issues without an entry could land is left alone.
  lemma {:induction false} RefreshAllFrame(es: Entities, comics: Comics, issues: seq<string>, now: nat, id: string)
    requires Projectable(es) && ValidComics(comics) && (forall i :: i in issues ==> i != [])
    requires RefreshAll(es, comics, issues, now).Ok?
    requires forall j :: j in issues && LandsOn(j, id) ==> |j| > 64 && !HasEntry(es, j)
    ensures ExistingRow(RefreshAll(es, comics, issues, now).value, id) == ExistingRow(comics, id)
  {
    hide Refresh, Projectable, ValidComics, LandsOn, HasEntry;
    if issues != [] {
      var init, last := issues[..|issues| - 1], issues[|issues| - 1];
      RefreshAllStep(es, comics, issues, now);
      assert last in issues && forall i :: i in init ==> i in issues;
      RefreshAllFrame(es, comics, init, now, id);
      RefreshAllRows(es, comics, init, now);
      var done := RefreshAll(es, comics, init, now).value;
      RefreshOne(es, done, last, now);
      if LandsOn(last, id) && last in done {
        RowKeysAreShort(done, last);
      }
    }
  }

  // Every short issue of the list agrees with its row in the end, unless a longer id with an
  // entry lands on it.
  lemma {:induction false} RefreshAllShows(es: Entities, comics: Comics, issues: seq<string>, now: nat, issue: string)
    requires Projectable(es) && ValidComics(comics) && (forall i :: i in issues ==> i != [])
    requires RefreshAll(es, comics, issues, now).Ok? && DistinctTexts(issues)
    requires issue in issues && |issue| <= 64 && (issue in comics ==> HasEntry(es, issue))
    requires forall j :: j in issues && j != issue && LandsOn(j, issue) ==> |j| > 64 && !HasEntry(es, j)
    ensures RowAgrees(es, RefreshAll(es, comics, issues, now).value, issue)
  {
    hide Refresh, Projectable, ValidComics, LandsOn, HasEntry, Shows, ViewOf;
    var init, last := issues[..|issues| - 1], issues[|issues| - 1];
    RefreshAllStep(es, comics, issues, now);
    assert last in issues && forall i :: i in init ==> i in issues;
    RefreshAllRows(es, comics, init, now);
    var done := RefreshAll(es, comics, init, now).value;
    if last == issue {
      assert issue !in init;
      RefreshAllFrame(es, comics, init, now, issue);
      RefreshShows(es, done, issue, now);
    } else {
      RefreshAllShows(es, comics, init, now, issue);
      RefreshOne(es, done, last, now);
      if LandsOn(last, issue) && last in done {
        RowKeysAreShort(done, last);
      }
    }
  }

  // ---------- The invariant ----------

  // A mutation of a client has changed something of the issue.
  ghost predicate Touched(core: Core, issue: string) {
    exists i :: 0 <= i < |core.log| && core.log[i].mutationId in core.receipts && Touches(core.log[i].changes, issue)
  }

  // An entry that a client changed under an id too long for its row.
  ghost predicate TouchedLong(core: Core, issue: string) {
    Touched(core, issue) && |issue| > 64 && HasEntry(core.entities, issue)
  }

  ghost predicate Overwritten(core: Core, row: string) {
    exists j :: TouchedLong(core, j) && LandsOn(j, row)
  }

  ghost predicate Refined(core: Core) {
    forall issue :: Touched(core, issue) && |issue| <= 64 && !Overwritten(core, issue) ==>
      RowAgrees(core.entities, core.comics, issue)
  }

  // A row has an entry of its own, or an id no v2 change can name, or belongs to a longer id.
  ghost predicate Rooted(core: Core) {
    forall id :: id in core.comics ==> RootedRow(core, id)
  }

  ghost predicate RootedRow(core: Core, id: string) {
    HasEntry(core.entities, id) || !IsIdentifier(id, 128) || Overwritten(core, id)
  }

  // ---------- One mutation ----------

  lemma TouchedAfter(core: Core, after: Core, m: Mutation, canonical: seq<Change>, issue: string)
    requires !InLog(core.log, m.id) && after.log == core.log + [Group(m.id, canonical)]
    requires after.receipts.Keys == core.receipts.Keys + {m.id}
    ensures Touched(after, issue) <==> Touched(core, issue) || Touches(canonical, issue)
  {
    hide Touches;
    if Touched(core, issue) {
      var i :| 0 <= i < |core.log| && core.log[i].mutationId in core.receipts && Touches(core.log[i].changes, issue);
      assert after.log[i] == core.log[i];
    }
    if Touches(canonical, issue) {
      assert after.log[|core.log|] == Group(m.id, canonical);
    }
    if Touched(after, issue) {
      var i :| 0 <= i < |after.log| && after.log[i].mutationId in after.receipts && Touches(after.log[i].changes, issue);
      if i < |core.log| {
        assert after.log[i] == core.log[i] && core.log[i].mutationId != m.id;
      }
    }
  }

  lemma TouchedIsIdentifier(es: Entities, cs: seq<Change>, issue: string)
    requires CopyAuthority(es) && ValidEntities(es) && AllValidBodies(cs) && Canonicalize(es, cs).Ok?
    requires Touches(Canonicalize(es, cs).value, issue)
    ensures IsIdentifier(issue, 128)
  {
    hide IsIdentifier, Normalized, Ordered;
    var d :| d in Canonicalize(es, cs).value && ChangeIssue(d) == issue;
    CanonicalIsValid(es, cs, d);
  }

  lemma UntouchedByGroup(es: Entities, cs: seq<Change>, revision: nat, issue: string)
    requires CopyAuthority(es) && AllValidBodies(cs) && Canonicalize(es, cs).Ok?
    requires !Touches(Canonicalize(es, cs).value, issue)
    ensures ViewOf(Record(es, Canonicalize(es, cs).value, revision), issue) == ViewOf(es, issue)
  {
    hide Normalized, Ordered, ViewOf, EntryAgrees, MergedActive, ValidBody;
    var canonical := Canonicalize(es, cs).value;
    CanonicalNoMoves(es, cs);
    forall c | c in canonical && c.data.Entry? ensures c.data.entry.issueId == c.id {
      GroupMemberGood(es, cs, revision, c);
    }
    UntouchedView(es, canonical, revision, issue);
  }

  lemma EntriesStay(es: Entities, cs: seq<Change>, revision: nat, issue: string)
    requires HasEntry(es, issue)
    ensures HasEntry(Record(es, cs, revision), issue)
  {
    RecordAt(es, cs, revision);
  }

  // What a recorded client mutation leaves, as far as the rows are concerned.
  ghost predicate Recording(core: Core, m: Mutation, now: nat, after: Core) {
    && CopyAuthority(core.entities) && ValidEntities(core.entities) && ValidComics(core.comics)
    && AllValidBodies(m.changes) && Canonicalize(core.entities, m.changes).Ok?
    && !InLog(core.log, m.id)
    && Projectable(after.entities)
    && var canonical := Canonicalize(core.entities, m.changes).value;
       && after.log == core.log + [Group(m.id, canonical)]
       && after.receipts.Keys == core.receipts.Keys + {m.id}
       && after.entities == Record(core.entities, canonical, |core.log| + 1)
       && RefreshAll(after.entities, core.comics, SortedTexts(Affected(canonical)), now) == Ok(after.comics)
  }

  lemma AffectedIssues(es: Entities, cs: seq<Change>, issue: string)
    requires CopyAuthority(es) && ValidEntities(es) && AllValidBodies(cs) && Canonicalize(es, cs).Ok?
    ensures issue in Affected(Canonicalize(es, cs).value) <==> Touches(Canonicalize(es, cs).value, issue)
    ensures issue in Affected(Canonicalize(es, cs).value) ==> issue != []
  {
    hide Canonicalize, AllValidBodies, CopyAuthority, ValidEntities;
    if Touches(Canonicalize(es, cs).value, issue) {
      TouchedIsIdentifier(es, cs, issue);
    }
  }

  lemma LongStays(core: Core, m: Mutation, now: nat, after: Core, j: string)
    requires Recording(core, m, now, after) && TouchedLong(core, j)
    ensures TouchedLong(after, j)
  {
    hide Canonicalize, AllValidBodies, CopyAuthority, ValidEntities, Projectable, ValidComics, Touched, HasEntry;
    var canonical := Canonicalize(core.entities, m.changes).value;
    TouchedAfter(core, after, m, canonical, j);
    EntriesStay(core.entities, canonical, |core.log| + 1, j);
  }

  lemma OverwrittenStays(core: Core, m: Mutation, now: nat, after: Core, row: string)
    requires Recording(core, m, now, after) && Overwritten(core, row)
    ensures Overwritten(after, row)
  {
    hide Recording, TouchedLong, LandsOn;
    var j :| TouchedLong(core, j) && LandsOn(j, row);
    LongStays(core, m, now, after, j);
  }

  // In a recorded group, only an id too long with an entry lands on a row that is not its own.
  lemma OthersLandNowhere(core: Core, m: Mutation, now: nat, after: Core, row: string, j: string)
    requires Recording(core, m, now, after) && !Overwritten(after, row) && j != row && LandsOn(j, row)
    requires j in Affected(Canonicalize(core.entities, m.changes).value)
    ensures |j| > 64 && !HasEntry(after.entities, j)
  {
    hide Canonicalize, AllValidBodies, CopyAuthority, ValidEntities, Projectable, ValidComics, HasEntry, Touches;
    var canonical := Canonicalize(core.entities, m.changes).value;
    AffectedIssues(core.entities, m.changes, j);
    TouchedAfter(core, after, m, canonical, j);
    assert TouchedLong(after, j) == (|j| > 64 && HasEntry(after.entities, j));
  }

  lemma SortedIsDistinct(s: set<string>)
    ensures DistinctTexts(SortedTexts(s)) && forall x :: x in SortedTexts(s) <==> x in s
  {
  }

  lemma RecordingKeepsRooted(core: Core, m: Mutation, now: nat, after: Core)
    requires Recording(core, m, now, after) && Rooted(core)
    ensures Rooted(after)
  {
    hide Recording, RootedRow;
    forall id | id in after.comics ensures RootedRow(after, id) {
      RecordingRoots(core, m, now, after, id);
    }
  }

  lemma RecordingRoots(core: Core, m: Mutation, now: nat, after: Core, id: string)
    requires Recording(core, m, now, after) && Rooted(core) && id in after.comics
    ensures RootedRow(after, id)
  {
    hide Canonicalize, AllValidBodies, CopyAuthority, ValidEntities, Projectable, ValidComics, IsIdentifier, Touches;
    var canonical := Canonicalize(core.entities, m.changes).value;
    var issues := SortedTexts(Affected(canonical));
    forall i | i in issues ensures i != [] {
      AffectedIssues(core.entities, m.changes, i);
    }
    RefreshAllRows(after.entities, core.comics, issues, now);
    if id in core.comics {
      assert RootedRow(core, id);
      if HasEntry(core.entities, id) {
        EntriesStay(core.entities, canonical, |core.log| + 1, id);
      } else if Overwritten(core, id) {
        OverwrittenStays(core, m, now, after, id);
      }
    } else {
      var j :| j in issues && LandsOn(j, id) && HasEntry(after.entities, j);
      AffectedIssues(core.entities, m.changes, j);
      TouchedAfter(core, after, m, canonical, j);
      assert |j| > 64 ==> TouchedLong(after, j);
    }
  }

  // An issue of the group is shown by its row.
  lemma RecordingShows(core: Core, m: Mutation, now: nat, after: Core, issue: string)
    requires Recording(core, m, now, after) && Rooted(core) && |issue| <= 64 && !Overwritten(after, issue)
    requires issue in Affected(Canonicalize(core.entities, m.changes).value)
    ensures RowAgrees(after.entities, after.comics, issue)
  {
    hide Canonicalize, AllValidBodies, CopyAuthority, ValidEntities, Projectable, ValidComics, IsIdentifier, Touches,
         RowAgrees, HasEntry, LandsOn;
    var canonical := Canonicalize(core.entities, m.changes).value;
    var issues := SortedTexts(Affected(canonical));
    SortedIsDistinct(Affected(canonical));
    AffectedIssues(core.entities, m.changes, issue);
    TouchedIsIdentifier(core.entities, m.changes, issue);
    if issue in core.comics {
      assert RootedRow(core, issue);
      if Overwritten(core, issue) {
        OverwrittenStays(core, m, now, after, issue);
      } else {
        EntriesStay(core.entities, canonical, |core.log| + 1, issue);
      }
    }
    forall j | j in issues
      ensures j != [] && (j != issue && LandsOn(j, issue) ==> |j| > 64 && !HasEntry(after.entities, j))
    {
      AffectedIssues(core.entities, m.changes, j);
      if j != issue && LandsOn(j, issue) {
        OthersLandNowhere(core, m, now, after, issue, j);
      }
    }
    RefreshAllShows(after.entities, core.comics, issues, now, issue);
  }

  // An issue the group does not touch keeps its row.
  lemma RecordingLeaves(core: Core, m: Mutation, now: nat, after: Core, issue: string)
    requires Recording(core, m, now, after) && |issue| <= 64 && !Overwritten(after, issue)
    requires issue !in Affected(Canonicalize(core.entities, m.changes).value)
    ensures RowAgrees(after.entities, after.comics, issue) == RowAgrees(core.entities, core.comics, issue)
  {
    hide Canonicalize, AllValidBodies, CopyAuthority, ValidEntities, Projectable, ValidComics, Touches, HasEntry,
         LandsOn, ViewOf, Shows;
    var canonical := Canonicalize(core.entities, m.changes).value;
    var issues := SortedTexts(Affected(canonical));
    SortedIsDistinct(Affected(canonical));
    AffectedIssues(core.entities, m.changes, issue);
    forall j | j in issues ensures j != [] && (LandsOn(j, issue) ==> |j| > 64 && !HasEntry(after.entities, j)) {
      AffectedIssues(core.entities, m.changes, j);
      if LandsOn(j, issue) {
        OthersLandNowhere(core, m, now, after, issue, j);
      }
    }
    RefreshAllFrame(after.entities, core.comics, issues, now, issue);
    UntouchedByGroup(core.entities, m.changes, |core.log| + 1, issue);
  }

  lemma RecordingRefines(core: Core, m: Mutation, now: nat, after: Core, issue: string)
    requires Recording(core, m, now, after) && Rooted(core) && Refined(core)
    requires Touched(after, issue) && |issue| <= 64 && !Overwritten(after, issue)
    ensures RowAgrees(after.entities, after.comics, issue)
  {
    hide Canonicalize, AllValidBodies, CopyAuthority, ValidEntities, Projectable, ValidComics, Touches, RowAgrees,
         Touched, Overwritten;
    var canonical := Canonicalize(core.entities, m.changes).value;
    if issue in Affected(canonical) {
      RecordingShows(core, m, now, after, issue);
    } else {
      AffectedIssues(core.entities, m.changes, issue);
      TouchedAfter(core, after, m, canonical, issue);
      if Overwritten(core, issue) {
        OverwrittenStays(core, m, now, after, issue);
      }
      RecordingLeaves(core, m, now, after, issue);
    }
  }

  lemma DeliverIsRecording(env: Env, core: Core, m: Mutation, now: nat)
    requires GoodCore(env, core) && ValidMutation(m) && !IdReused(core, m) && m.id !in core.receipts
    requires Deliver(env, core, m, now).Ok?
    ensures Recording(core, m, now, Deliver(env, core, m, now).value.0)
  {
    hide Canonicalize, CopyAuthority, ValidEntities, ValidComics, GoodHistory, Record, RefreshAll, ChangesBytes,
         ValidBody;
    DeliverKeeps(env, core, m, now);
    GoodIsProjectable(env, Deliver(env, core, m, now).value.0);
    assert forall c :: c in m.changes ==> ValidChange(c);
  }

  lemma GoodIsProjectable(env: Env, core: Core)
    requires GoodCore(env, core)
    ensures Projectable(core.entities) && CopyAuthority(core.entities)
  {
    hide WellKeyed, IssuesDescribed, ValidEntities, GoodHistory;
  }

  lemma DeliverRefines(env: Env, core: Core, m: Mutation, now: nat)
    requires GoodCore(env, core) && ValidMutation(m) && !IdReused(core, m)
    requires Refined(core) && Rooted(core) && Deliver(env, core, m, now).Ok?
    ensures var after := Deliver(env, core, m, now).value.0; Refined(after) && Rooted(after)
  {
    hide GoodCore, Recording, RowAgrees, Overwritten, Touched, ValidMutation, IdReused, RootedRow;
    if m.id in core.receipts {
      assert Deliver(env, core, m, now).value.0 == core;
    } else {
      DeliverIsRecording(env, core, m, now);
      var after := Deliver(env, core, m, now).value.0;
      RecordingKeepsRooted(core, m, now, after);
      forall issue | Touched(after, issue) && |issue| <= 64 && !Overwritten(after, issue)
        ensures RowAgrees(after.entities, after.comics, issue)
      {
        RecordingRefines(core, m, now, after, issue);
      }
    }
  }

  lemma {:induction false} DeliverAllRefines(env: Env, core: Core, ms: seq<Mutation>, now: nat)
    requires GoodCore(env, core) && Deliverable(core, ms) && Refined(core) && Rooted(core)
    requires DeliverAll(env, core, ms, now).Ok?
    ensures var after := DeliverAll(env, core, ms, now).value.core; Refined(after) && Rooted(after)
  {
    hide GoodCore, Deliver, Refined, Rooted, ValidMutation, IdReused, Grew;
    if ms != [] {
      var init, last := ms[..|ms| - 1], ms[|ms| - 1];
      DeliverablePrefix(core, ms);
      DeliverAllRefines(env, core, init, now);
      DeliverAllKeeps(env, core, init, now);
      StillFresh(core, DeliverAll(env, core, init, now).value.core, ms);
      DeliverRefines(env, DeliverAll(env, core, init, now).value.core, last, now);
    }
  }

  // ---------- Every run ----------

  // Before activation the tables are in lock-step; then the rows follow the entities.
  ghost predicate InPhase(env: Env, core: Core) {
    GoodCore(env, core) && Refined(core) && Rooted(core) && (!core.activated ==> V1Phase(env, core))
  }

  lemma EntryOfRow(env: Env, es: Entities, row: Comic)
    requires HoldsRow(env, es, row)
    ensures HasEntry(es, SanitizedId(env, row.id))
  {
    hide Sanitize, CanonicalOf, SanitizedId;
    SanitizedIdOf(env, row);
    EntryOfCanonical(Sanitize(env, row));
  }

  lemma EntryOfCanonical(c: Comic)
    ensures exists d :: d in CanonicalOf(c) && KeyOf(d) == Key(CollectionEntry, c.id)
  {
    assert CanonicalOf(c)[1] in CanonicalOf(c);
  }

  lemma V1PhaseIsInPhase(env: Env, core: Core)
    requires GoodCore(env, core) && V1Phase(env, core)
    ensures InPhase(env, core)
  {
    hide GoodCore, HoldsRow, IsIdentifier, V1Shaped, WritesAreOld, EntitiesAnchored, Overwritten, HasEntry;
    forall id | id in core.comics ensures RootedRow(core, id) {
      assert RowAnchored(env, core.entities, core.comics, SanitizedId(env, id));
      var a :| a in core.comics && SanitizedId(env, a) == SanitizedId(env, id) && HoldsRow(env, core.entities, core.comics[a]);
      EntryOfRow(env, core.entities, core.comics[a]);
    }
  }

  lemma SyncV1InPhase(env: Env, core: Core, raws: seq<Comic>)
    requires InPhase(env, core) && ValidEnv(env) && SyncV1(env, core, raws).Ok?
    ensures InPhase(env, SyncV1(env, core, raws).value)
  {
    hide V1Phase, GoodCore, Refined, Rooted, WriteAllV1, ValidComic, ValidEnv, WellKeyed;
    SyncV1Keeps(env, core, raws);
    if !core.activated {
      GoodIsWellKeyed(env, core);
      WriteAllV1InLockstep(env, core, CleanAll(raws).value);
      V1PhaseIsInPhase(env, SyncV1(env, core, raws).value);
    }
  }

  lemma GoodIsWellKeyed(env: Env, core: Core)
    requires GoodCore(env, core)
    ensures WellKeyed(core.entities)
  {
    hide WellKeyed, GoodHistory, ValidEntities, IssuesDescribed;
  }

  lemma ActivationKeepsRows(core: Core, activated: bool)
    ensures Refined(core.(activated := activated)) == Refined(core)
    ensures Rooted(core.(activated := activated)) == Rooted(core)
  {
    hide RowAgrees, Touches;
    var after := core.(activated := activated);
    forall issue ensures Touched(after, issue) == Touched(core, issue) {
    }
    forall row ensures Overwritten(after, row) == Overwritten(core, row) {
      OverwrittenDepends(core, after, row);
      OverwrittenDepends(after, core, row);
    }
    assert forall id :: id in core.comics ==> RootedRow(after, id) == RootedRow(core, id);
  }

  lemma OverwrittenDepends(core: Core, after: Core, row: string)
    requires after == core.(activated := after.activated)
    ensures Overwritten(core, row) ==> Overwritten(after, row)
  {
    hide LandsOn, Touches;
    if j :| TouchedLong(core, j) && LandsOn(j, row) {
      assert TouchedLong(after, j);
    }
  }

  lemma ExecuteInPhase(env: Env, serverId: string, core: Core, req: Request, now: nat)
    requires InPhase(env, core) && ValidRequest(req) && req.cursor <= |core.log|
    requires Execute(env, serverId, core, req, now).Ok?
    ensures InPhase(env, Execute(env, serverId, core, req, now).value.0)
  {
    hide V1Phase, GoodCore, Refined, Rooted, Deliver, ValidRequest, BuildResponse, Truthful;
    ExecuteKeeps(env, serverId, core, req, now);
    DeliverAllRefines(env, core, req.mutations, now);
    var d := DeliverAll(env, core, req.mutations, now).value.core;
    ActivationKeepsRows(d, d.activated || req.mutations != []);
  }

  lemma StepInPhase(env: Env, serverId: string, st: State, call: Call)
    requires GoodState(env, st) && InPhase(env, st.core) && ValidEnv(env)
    ensures InPhase(env, Step(env, serverId, st, call).core)
  {
    hide InPhase, SyncV1, Execute, ValidEnv, Prune, Insert, GoodCache;
    match call
    case V1(changes) =>
      if SyncV1(env, st.core, changes).Ok? {
        SyncV1InPhase(env, st.core, changes);
      }
    case V2(request, cacheResponse, now, later) =>
      if Computed(env, serverId, st, request, now) {
        ExecuteInPhase(env, serverId, st.core, request, now);
      }
  }

  lemma {:induction false} RunInPhase(env: Env, serverId: string, st: State, calls: seq<Call>)
    requires GoodState(env, st) && InPhase(env, st.core) && ValidEnv(env)
    ensures InPhase(env, Run(env, serverId, st, calls).core)
  {
    hide GoodState, InPhase, Step, ValidEnv;
    if calls != [] {
      RunInPhase(env, serverId, st, calls[..|calls| - 1]);
      RunKeeps(env, serverId, st, calls[..|calls| - 1]);
      StepInPhase(env, serverId, Run(env, serverId, st, calls[..|calls| - 1]), calls[|calls| - 1]);
    }
  }

  lemma LongHasNoRow(core: Core, issue: string)
    requires WellKeyed(core.entities) && ValidComics(core.comics) && |issue| > 64
    ensures RowAgrees(core.entities, core.comics, issue) <==> !HasEntry(core.entities, issue)
  {
    hide ViewOf, Shows, ValidComic, HasEntry;
    EntryOfView(core.entities, issue);
    if issue in core.comics {
      RowKeysAreShort(core.comics, issue);
    }
  }

  lemma RowsFollowIffShort(env: Env, core: Core)
    requires InPhase(env, core)
    ensures (forall i :: Touched(core, i) ==> RowAgrees(core.entities, core.comics, i))
            <==> (forall i :: Touched(core, i) && HasEntry(core.entities, i) ==> |i| <= 64)
  {
    hide V1Phase, RowAgrees, Touched, HasEntry, LandsOn, GoodHistory, ValidComics, WellKeyed;
    GoodIsWellKeyed(env, core);
    forall i | |i| > 64 ensures RowAgrees(core.entities, core.comics, i) <==> !HasEntry(core.entities, i) {
      LongHasNoRow(core, i);
    }
  }

  // In every state a store can reach, either no client has written yet and the entity table is
  // anchored in the flat rows, or the flat row of every issue a client has changed shows its
  // entities. The exception is an id of more than 64 characters with an entry: the projection
  // cuts it, so it has no row of its own and writes into that of another id.
  lemma RowsFollowEntities(env: Env, serverId: string, comics: Comics, calls: seq<Call>)
    requires ValidEnv(env) && ValidComics(comics) && Opened(env, comics).Ok?
    ensures var core := Run(env, serverId, State(Opened(env, comics).value, []), calls).core;
            && (!core.activated ==> V1Phase(env, core))
            && (forall i :: Touched(core, i) && |i| <= 64 && !Overwritten(core, i) ==>
                  RowAgrees(core.entities, core.comics, i))
            && ((forall i :: Touched(core, i) ==> RowAgrees(core.entities, core.comics, i))
                <==> (forall i :: Touched(core, i) && HasEntry(core.entities, i) ==> |i| <= 64))
  {
    hide ValidEnv, ValidComics, Opened, Step, V1Phase, RowAgrees, Touched, HasEntry, Overwritten, WellKeyed;
    OpenedIsGood(env, comics);
    OpenedInLockstep(env, comics);
    var start := State(Opened(env, comics).value, []);
    V1PhaseIsInPhase(env, start.core);
    EmptyCacheIsGood(env, start.core);
    RunInPhase(env, serverId, start, calls);
    RowsFollowIffShort(env, Run(env, serverId, start, calls).core);
  }

  // In every state before activation the entity table is the union of the flat rows, unless the
  // digests of two ids collide; with such a collision, exactly when those rows describe the same.
  lemma UnionBeforeActivation(env: Env, serverId: string, comics: Comics, calls: seq<Call>)
    requires ValidEnv(env) && ValidComics(comics) && Opened(env, comics).Ok?
    ensures var core := Run(env, serverId, State(Opened(env, comics).value, []), calls).core;
            !core.activated ==>
              && (DigestsDiffer(env, core.comics) ==> IsUnion(env, core.entities, core.comics))
              && (IsUnion(env, core.entities, core.comics) <==> SharedIdsAgree(env, core.comics))
  {
    hide ValidEnv, ValidComics, Opened, Step, Anchored, IsUnion, SharedIdsAgree, DigestsDiffer, GoodHistory, GoodTables;
    RowsFollowEntities(env, serverId, comics, calls);
    OpenedIsGood(env, comics);
    var start := State(Opened(env, comics).value, []);
    EmptyCacheIsGood(env, start.core);
    RunKeeps(env, serverId, start, calls);
    var core := Run(env, serverId, start, calls).core;
    if !core.activated {
      TableIsUnionOfRows(env, core.entities, core.comics);
    }
  }

  // The comics written by the v1 calls of a run that were accepted.
  ghost function AcceptedWrites(env: Env, serverId: string, st: State, calls: seq<Call>): seq<Comic> {
    if calls == [] then []
    else
      var init, last := calls[..|calls| - 1], calls[|calls| - 1];
      AcceptedWrites(env, serverId, st, init)
      + if last.V1? && SyncV1(env, Run(env, serverId, st, init).core, last.changes).Ok?
        then CleanAll(last.changes).value else []
  }

  lemma {:induction false} WriteMore(env: Env, core: Core, a: seq<Comic>, b: seq<Comic>)
    requires WriteAllV1(env, core, a).Ok?
    ensures WriteAllV1(env, core, a + b) == WriteAllV1(env, WriteAllV1(env, core, a).value, b)
  {
    hide WriteV1;
    if b == [] {
      assert a + b == a;
    } else {
      WriteMore(env, core, a, b[..|b| - 1]);
      assert (a + b)[..|a + b| - 1] == a + b[..|b| - 1];
    }
  }

  lemma StepBeforeActivation(env: Env, serverId: string, st: State, call: Call)
    requires GoodState(env, st) && ValidEnv(env) && !Step(env, serverId, st, call).core.activated
    ensures !st.core.activated
    ensures var after := Step(env, serverId, st, call).core;
            if call.V1? && SyncV1(env, st.core, call.changes).Ok?
            then CleanAll(call.changes).Some? && WriteAllV1(env, st.core, CleanAll(call.changes).value) == Ok(after)
            else after == st.core
  {
    hide GoodCore, GoodCache, ValidEnv, WriteAllV1, ValidateComic, BuildResponse, Truthful, Prune, Insert, Answered;
    match call
    case V1(changes) => SyncV1Keeps(env, st.core, changes);
    case V2(request, cacheResponse, now, later) =>
      SyncV2Keeps(env, serverId, st, request, cacheResponse, now, later);
  }

  lemma {:induction false} RunIsItsWrites(env: Env, serverId: string, st: State, calls: seq<Call>)
    requires GoodState(env, st) && ValidEnv(env) && !Run(env, serverId, st, calls).core.activated
    ensures WriteAllV1(env, st.core, AcceptedWrites(env, serverId, st, calls))
            == Ok(Run(env, serverId, st, calls).core)
  {
    hide GoodState, ValidEnv, Step, SyncV1, WriteV1;
    if calls != [] {
      var init, last := calls[..|calls| - 1], calls[|calls| - 1];
      RunKeeps(env, serverId, st, init);
      var mid := Run(env, serverId, st, init);
      StepBeforeActivation(env, serverId, mid, last);
      RunIsItsWrites(env, serverId, st, init);
      var done := AcceptedWrites(env, serverId, st, init);
      if last.V1? && SyncV1(env, mid.core, last.changes).Ok? {
        WriteMore(env, st.core, done, CleanAll(last.changes).value);
      } else {
        assert done + [] == done;
      }
    }
  }

  // Before activation, whatever the clients have called, the tables are those of one list of all
  // accepted v1 writes, and each row is the newest of its writes and what was there at first.
  lemma RunKeepsNewestWrites(env: Env, serverId: string, comics: Comics, calls: seq<Call>, id: string)
    requires ValidEnv(env) && ValidComics(comics) && Opened(env, comics).Ok?
    ensures var start := State(Opened(env, comics).value, []);
            var core, writes := Run(env, serverId, start, calls).core, AcceptedWrites(env, serverId, start, calls);
            !core.activated ==>
              && WriteAllV1(env, start.core, writes) == Ok(core)
              && IsNewest(ExistingRow(comics, id), writes, id, ExistingRow(core.comics, id))
  {
    hide ValidEnv, ValidComics, Opened, Step, GoodCore, V1Phase, WriteAllV1, IsNewest, AcceptedWrites, WellKeyed;
    OpenedIsGood(env, comics);
    OpenedInLockstep(env, comics);
    var start := State(Opened(env, comics).value, []);
    EmptyCacheIsGood(env, start.core);
    if !Run(env, serverId, start, calls).core.activated {
      RunIsItsWrites(env, serverId, start, calls);
      NewestWriteWins(env, start.core, AcceptedWrites(env, serverId, start, calls), id);
    }
  }

  lemma EmptyCacheIsGood(env: Env, core: Core)
    requires GoodCore(env, core)
    ensures GoodState(env, State(core, []))
  {
    hide GoodCore;
  }

  lemma StepKeepsActivation(env: Env, serverId: string, st: State, call: Call)
    requires GoodState(env, st) && ValidEnv(env) && st.core.activated
    ensures Step(env, serverId, st, call).core.activated
    ensures call.V1? ==> Step(env, serverId, st, call) == st
  {
    hide GoodCore, GoodCache, SyncV1, SyncV2, ValidEnv, Execute;
    match call
    case V1(changes) => SyncV1Keeps(env, st.core, changes);
    case V2(request, cacheResponse, now, later) =>
      SyncV2Keeps(env, serverId, st, request, cacheResponse, now, later);
  }

  // Once a client has written through v2, no v1 call changes anything any more.
  lemma {:induction false} ActivationFreezesV1(env: Env, serverId: string, st: State, calls: seq<Call>,
                                               changes: seq<Comic>)
    requires GoodState(env, st) && ValidEnv(env) && st.core.activated
    ensures var now := Run(env, serverId, st, calls);
            now.core.activated && Step(env, serverId, now, V1(changes)) == now
  {
    hide GoodState, ValidEnv, Step;
    if calls == [] {
      StepKeepsActivation(env, serverId, st, V1(changes));
    } else {
      var init, last := calls[..|calls| - 1], calls[|calls| - 1];
      ActivationFreezesV1(env, serverId, st, init, changes);
      RunKeeps(env, serverId, st, init);
      StepKeepsActivation(env, serverId, Run(env, serverId, st, init), last);
      RunKeeps(env, serverId, st, calls);
      StepKeepsActivation(env, serverId, Run(env, serverId, st, calls), V1(changes));
    }
  }

  // The bridge itself makes such ids: a v1 id that is no v2 identifier becomes one of 71
  // characters, and the row a client's change of it leads to is a new one under the first 64.
  lemma LegacyIdsAreLong(env: Env, raw: string)
    requires ValidEnv(env) && !IsIdentifier(raw, 128)
    ensures |SanitizedId(env, raw)| == 71
    ensures !LandsOn(SanitizedId(env, raw), SanitizedId(env, raw))
  {
    LegacyIdIsLong(env, raw);
  }

  // ---------- When a projection is refused ----------

  ghost predicate AtClockLimit(es: Entities, comics: Comics, issue: string) {
    && issue in comics && comics[issue].updatedAt == MAX_INT64
    && Projects(ViewOf(es, issue), Some(comics[issue]))
  }

  lemma RefreshFails(es: Entities, comics: Comics, issue: string, now: nat)
    requires ValidEntities(es) && ValidComics(comics) && issue != [] && now < MAX_INT64
    ensures Refresh(es, comics, issue, now).Err? <==> AtClockLimit(es, comics, issue)
    ensures Refresh(es, comics, issue, now).Err? ==> Refresh(es, comics, issue, now) == Err(InternalError)
  {
    hide ViewOf, Projects, Row, ValidComic, ValidEntities;
    RefreshEffect(es, comics, issue, now);
    if issue in comics {
      ClockFits(comics, issue);
    }
  }

  lemma ClockFits(comics: Comics, issue: string)
    requires ValidComics(comics) && issue in comics
    ensures comics[issue].updatedAt <= MAX_INT64
  {
    assert ValidComic(comics[issue]);
  }

  // A refresh of one issue does not bring another row to the limit, nor away from it.
  lemma OthersKeepLimit(es: Entities, comics: Comics, issue: string, now: nat, id: string)
    requires ValidEntities(es) && ValidComics(comics) && issue != [] && now < MAX_INT64 && id != issue
    requires Refresh(es, comics, issue, now).Ok?
    ensures AtClockLimit(es, Refresh(es, comics, issue, now).value, id) <==> AtClockLimit(es, comics, id)
  {
    hide Refresh, ViewOf, ViewIssue, ValidEntities, ValidComics;
    RefreshLands(es, comics, issue, now, id);
  }

  // A row another issue's refresh leaves at the limit, or brings there, was there before.
  lemma RefreshLands(es: Entities, comics: Comics, issue: string, now: nat, id: string)
    requires ValidEntities(es) && ValidComics(comics) && issue != [] && now < MAX_INT64 && id != issue
    requires Refresh(es, comics, issue, now).Ok?
    ensures var after := Refresh(es, comics, issue, now).value;
            id in after && after[id].updatedAt == MAX_INT64 <==> id in comics && comics[id].updatedAt == MAX_INT64
  {
    hide Refresh, ViewOf, ViewIssue, Row, ValidComic, ValidEntities, Shows;
    RefreshEffect(es, comics, issue, now);
    if Projects(ViewOf(es, issue), ExistingRow(comics, issue)) {
      if issue in comics {
        RowKeysAreShort(comics, issue);
      }
      RowIsNamed(ViewOf(es, issue), Cut(issue, 64), "", Max(now, 1));
    }
  }

  lemma RowIsNamed(v: View, id: string, cover: string, updatedAt: int)
    requires ViewIssue(v).Some?
    ensures Row(v, id, cover, updatedAt).id == id && Row(v, id, cover, updatedAt).updatedAt == updatedAt
  {
    hide ViewIssue, Primary, ActiveKeys;
  }

  // The projection of a group fails exactly when the row of one of its issues already carries
  // the largest 64-bit timestamp, which leaves no later one to write.
  lemma {:induction false} RefreshAllFails(es: Entities, comics: Comics, issues: seq<string>, now: nat)
    requires ValidEntities(es) && ValidComics(comics) && now < MAX_INT64
    requires DistinctTexts(issues) && forall i :: i in issues ==> i != []
    ensures RefreshAll(es, comics, issues, now).Err? <==> exists i :: i in issues && AtClockLimit(es, comics, i)
    ensures RefreshAll(es, comics, issues, now).Ok? ==>
              forall id :: id !in issues ==>
                (AtClockLimit(es, RefreshAll(es, comics, issues, now).value, id) <==> AtClockLimit(es, comics, id))
  {
    hide Refresh, AtClockLimit, ValidEntities, ValidComics;
    if issues != [] {
      var init, last := issues[..|issues| - 1], issues[|issues| - 1];
      assert issues == init + [last] && last in issues && last !in init;
      assert forall i :: i in init ==> i in issues;
      RefreshAllFails(es, comics, init, now);
      RefreshAllKeepsValid(es, comics, init, now);
      var done := RefreshAll(es, comics, init, now);
      if done.Ok? {
        RefreshFails(es, done.value, last, now);
        if Refresh(es, done.value, last, now).Ok? {
          forall id | id !in issues
            ensures AtClockLimit(es, Refresh(es, done.value, last, now).value, id) <==> AtClockLimit(es, comics, id)
          {
            OthersKeepLimit(es, done.value, last, now, id);
          }
        }
      }
    }
  }
}
