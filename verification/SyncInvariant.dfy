/** What every call of the sync server keeps: the entity table is the replay of the log, copies
    decide entries, mutation ids are unique, and receipts name the groups they acknowledge. */
module SyncInvariant {
  import opened Basics
  import opened SyncTypes
  import opened Canonical
  import opened Authority
  import opened Projection
  import opened V1Bridge
  import opened Paging
  import opened SyncState

  // ---------- The invariant of the tables ----------

  ghost predicate UniqueIds(log: seq<Group>) {
    forall i, j :: 0 <= i < j < |log| ==> log[i].mutationId != log[j].mutationId
  }

  ghost predicate GoodGroups(env: Env, log: seq<Group>) {
    forall i :: 0 <= i < |log| ==> SmallGroup(env, log[i]) && log[i].changes != []
  }

  // A receipt names the group its mutation was recorded as.
  ghost predicate GoodReceipts(core: Core) {
    forall id :: id in core.receipts ==>
      && 1 <= core.receipts[id].revision <= |core.log|
      && core.log[core.receipts[id].revision - 1].mutationId == id
      && core.receipts[id].payload.id == id
  }

  ghost predicate GoodHistory(env: Env, core: Core) {
    UniqueIds(core.log) && GoodGroups(env, core.log) && GoodReceipts(core)
  }

  ghost predicate GoodTables(core: Core) {
    core.entities == Replay(core.log) && CopyAuthority(core.entities) && ValidEntities(core.entities)
  }

  ghost predicate GoodCore(env: Env, core: Core) {
    GoodHistory(env, core) && GoodTables(core) && ValidComics(core.comics)
  }

  // ---------- Stored data stays valid ----------

  lemma {:induction false} FirstHintIsValid(cs: seq<Change>)
    requires forall c :: c in cs ==> ValidBody(c)
    ensures ValidHint(FirstHint(cs))
  {
    if cs != [] {
      assert ValidBody(cs[0]);
      FirstHintIsValid(cs[1..]);
    }
  }

  lemma {:induction false} LatestUpdateIsValid(cs: seq<Change>)
    requires forall c :: c in cs ==> ValidBody(c)
    ensures 0 <= LatestUpdate(cs) <= MAX_INT64
  {
    if cs != [] {
      assert ValidBody(cs[0]);
      LatestUpdateIsValid(cs[1..]);
    }
  }

  lemma ImpliedEntryIsValid(es: Entities, cs: seq<Change>, issue: string)
    requires ValidEntities(es) && issue in MissingEntries(Ordered(cs)) && AllValidBodies(cs)
    ensures ValidData(ImpliedEntry(es, Ordered(cs), issue).data)
  {
    var base := Ordered(cs);
    var copies := CopyChanges(base, issue);
    CopyChangesAreCopies(base, issue);
    OrderedMembers(cs);
    forall c | c in copies ensures ValidBody(c) {
      assert c in cs;
    }
    FirstHintIsValid(copies);
    LatestUpdateIsValid(copies);
    var c :| c in base && c.data.Copy? && c.data.copy.issueId == issue;
    assert c in copies && ValidBody(c);
    ImpliedDataIsValid(es, base, issue);
  }

  lemma ImpliedDataIsValid(es: Entities, cs: seq<Change>, issue: string)
    requires ValidEntities(es) && IsIdentifier(issue, 128)
    requires ValidHint(FirstHint(CopyChanges(cs, issue)))
    requires 0 <= LatestUpdate(CopyChanges(cs, issue)) <= MAX_INT64
    ensures ValidData(ImpliedEntry(es, cs, issue).data)
  {
  }

  lemma NormalizedEntryIsValid(es: Entities, e: Change, active: nat)
    requires ValidEntities(es) && e.data.Entry? && ValidData(e.data)
    ensures ValidData(NormalizeEntry(es, e, active).data)
  {
  }

  lemma CanonicalIsValid(es: Entities, cs: seq<Change>, d: Change)
    requires WellKeyed(es) && OperationsAgree(es) && ValidEntities(es) && AllValidBodies(cs)
    requires d in Normalized(es, Ordered(cs))
    ensures ValidData(d.data) && (d.data.Issue? ==> IsIdentifier(d.id, 128))
  {
    if d.data.Entry? {
      var e := CanonicalEntry(es, cs, d);
      if e in cs {
        assert ValidBody(e);
      } else {
        ImpliedEntryIsValid(es, cs, d.id);
      }
      NormalizedEntryIsValid(es, e, |MergedActive(es, Ordered(cs), d.id)|);
    } else {
      CanonicalOther(es, Ordered(cs), d);
      OrderedMembers(cs);
      var o :| o in cs && CanonicalChange(o) == d;
      assert ValidBody(o);
    }
  }

  lemma GroupKeepsValid(es: Entities, cs: seq<Change>, revision: nat)
    requires CopyAuthority(es) && ValidEntities(es) && AllValidBodies(cs) && Canonicalize(es, cs).Ok?
    ensures ValidEntities(Record(es, Canonicalize(es, cs).value, revision))
  {
    var canonical := Canonicalize(es, cs).value;
    var after := Record(es, canonical, revision);
    RecordAt(es, canonical, revision);
    forall k | k in after
      ensures ValidData(after[k].data) && (after[k].data.Issue? ==> IsIdentifier(k.id, 128))
    {
      if d :| d in canonical && KeyOf(d) == k {
        CanonicalIsValid(es, cs, d);
        assert after[k] == Entity(d.op, d.data, revision);
      }
    }
  }

  lemma {:induction false} RefreshAllKeepsValid(es: Entities, comics: Comics, issues: seq<string>, now: nat)
    requires ValidEntities(es) && ValidComics(comics) && forall i :: i in issues ==> i != ""
    ensures RefreshAll(es, comics, issues, now).Ok? ==> ValidComics(RefreshAll(es, comics, issues, now).value)
  {
    if issues != [] {
      var init := issues[..|issues| - 1];
      assert issues[|issues| - 1] in issues && forall i :: i in init ==> i in issues;
      RefreshAllKeepsValid(es, comics, init, now);
      if RefreshAll(es, comics, init, now).Ok? {
        RefreshEffect(es, RefreshAll(es, comics, init, now).value, issues[|issues| - 1], now);
      }
    }
  }

  // ---------- A recorded group ----------

  lemma NormalizedNotEmpty(es: Entities, cs: seq<Change>)
    requires Canonicalize(es, cs).Ok? && cs != []
    ensures Canonicalize(es, cs).value != []
  {
    OrderedMembers(cs);
    assert |Canonicalize(es, cs).value| >= |Ordered(cs)|;
  }

  lemma ReplayOfAppend(log: seq<Group>, g: Group)
    ensures Replay(log + [g]) == Record(Replay(log), g.changes, |log| + 1)
  {
    assert (log + [g])[..|log|] == log;
  }

  lemma HistoryGrows(env: Env, core: Core, g: Group)
    requires GoodHistory(env, core) && !InLog(core.log, g.mutationId) && SmallGroup(env, g) && g.changes != []
    ensures GoodHistory(env, core.(log := core.log + [g]))
  {
    hide SmallGroup, InLog;
    var log := core.log + [g];
    forall i, j | 0 <= i < j < |log| ensures log[i].mutationId != log[j].mutationId {
      InLogAt(core.log, i);
    }
    assert GoodGroups(env, log);
    ReceiptsKeep(core, g);
  }

  lemma InLogAt(log: seq<Group>, i: nat)
    ensures i < |log| ==> InLog(log, log[i].mutationId)
  {
  }

  lemma ReceiptsKeep(core: Core, g: Group)
    requires GoodReceipts(core)
    ensures GoodReceipts(core.(log := core.log + [g]))
  {
  }

  lemma TablesFollow(core: Core, id: MutationId, cs: seq<Change>)
    requires GoodTables(core) && AllValidBodies(cs) && Canonicalize(core.entities, cs).Ok?
    ensures var canonical := Canonicalize(core.entities, cs).value;
            GoodTables(core.(log := core.log + [Group(id, canonical)],
                             entities := Record(core.entities, canonical, |core.log| + 1)))
  {
    hide Canonicalize, CopyAuthority, ValidEntities, AllValidBodies, Record, Replay;
    GroupKeepsCopyAuthority(core.entities, cs, |core.log| + 1);
    GroupKeepsValid(core.entities, cs, |core.log| + 1);
    ReplayOfAppend(core.log, Group(id, Canonicalize(core.entities, cs).value));
  }

  // The tables right after the group is recorded, before any projection.
  function Recorded(core: Core, id: MutationId, canonical: seq<Change>): Core {
    core.(log := core.log + [Group(id, canonical)],
          entities := Record(core.entities, canonical, |core.log| + 1))
  }

  lemma RecordedIsGood(env: Env, core: Core, id: MutationId, cs: seq<Change>)
    requires GoodCore(env, core) && ValidMutationId(id) && !InLog(core.log, id)
    requires cs != [] && AllValidBodies(cs) && Canonicalize(core.entities, cs).Ok?
    requires ChangesBytes(env, Canonicalize(core.entities, cs).value) <= MAX_V2_GROUP_BYTES
    ensures GoodCore(env, Recorded(core, id, Canonicalize(core.entities, cs).value))
  {
    hide Canonicalize, GoodTables, UniqueIds, GoodGroups, ChangesBytes, ValidMutationId, AllValidBodies, Record;
    var canonical := Canonicalize(core.entities, cs).value;
    NormalizedNotEmpty(core.entities, cs);
    TablesFollow(core, id, cs);
    HistoryGrows(env, core, Group(id, canonical));
    var next := core.(log := core.log + [Group(id, canonical)]);
    assert GoodReceipts(next);
  }

  lemma NewComicsAreGood(env: Env, core: Core, comics: Comics)
    requires GoodCore(env, core) && ValidComics(comics)
    ensures GoodCore(env, core.(comics := comics))
  {
  }

  lemma GoodIsValid(env: Env, core: Core)
    requires GoodCore(env, core)
    ensures ValidEntities(core.entities) && ValidComics(core.comics)
  {
    hide GoodHistory, CopyAuthority, Replay, ValidEntities, ValidComics;
  }

  lemma AffectedAreNamed(cs: seq<Change>)
    ensures forall i :: i in SortedTexts(Affected(cs)) ==> i != ""
  {
    hide SortedTexts, ChangeIssue;
  }

  lemma RecordGroupKeeps(env: Env, core: Core, id: MutationId, cs: seq<Change>, projectV1: bool, now: nat)
    requires GoodCore(env, core) && ValidMutationId(id) && !InLog(core.log, id)
    requires cs != [] && AllValidBodies(cs) && Canonicalize(core.entities, cs).Ok?
    ensures var canonical := Canonicalize(core.entities, cs).value;
            var r := RecordGroup(env, core, id, canonical, projectV1, now);
            r.Ok? ==>
              && GoodCore(env, r.value)
              && r.value == Recorded(core, id, canonical).(comics := r.value.comics)
              && (!projectV1 ==> r.value.comics == core.comics)
  {
    hide GoodCore, Canonicalize, AllValidBodies, ChangesBytes, Record, RefreshAll, Affected, ValidEntities, ValidComics;
    var canonical := Canonicalize(core.entities, cs).value;
    var r := RecordGroup(env, core, id, canonical, projectV1, now);
    if r.Ok? {
      RecordedIsGood(env, core, id, cs);
      var recorded := Recorded(core, id, canonical);
      if projectV1 {
        AffectedAreNamed(canonical);
        GoodIsValid(env, recorded);
        RefreshAllKeepsValid(recorded.entities, core.comics, SortedTexts(Affected(canonical)), now);
        NewComicsAreGood(env, recorded, r.value.comics);
      }
    }
  }

  // ---------- Protocol v2 ----------

  ghost predicate Named(ms: seq<Mutation>, id: MutationId) {
    exists i :: 0 <= i < |ms| && ms[i].id == id
  }

  // The tables only grow, and only by what the mutations name.
  ghost predicate Grew(before: Core, after: Core, ms: seq<Mutation>) {
    && before.log <= after.log && after.activated == before.activated
    && (forall id :: id in before.receipts ==> id in after.receipts && after.receipts[id] == before.receipts[id])
    && (forall id :: id in after.receipts ==> id in before.receipts || Named(ms, id))
    && (forall id :: InLog(after.log, id) ==> InLog(before.log, id) || Named(ms, id))
  }

  lemma ValidMutationParts(m: Mutation)
    requires ValidMutation(m)
    ensures m.changes != [] && AllValidBodies(m.changes) && ValidMutationId(m.id)
  {
    hide ValidBody, IsIdentifier;
  }

  lemma GoodHasReceipts(env: Env, core: Core)
    requires GoodCore(env, core)
    ensures GoodReceipts(core)
  {
    hide GoodReceipts, GoodTables, UniqueIds, GoodGroups, ValidComics;
  }

  lemma ReceiptIsGood(env: Env, core: Core, after: Core)
    requires GoodCore(env, core) && GoodReceipts(after) && after == core.(receipts := after.receipts)
    ensures GoodCore(env, after)
  {
    hide GoodReceipts, CopyAuthority, ValidEntities, UniqueIds, GoodGroups, ValidComics, Replay;
  }

  // A new mutation is recorded as the next group and remembered.
  lemma DeliverNew(env: Env, core: Core, m: Mutation, now: nat)
    requires GoodCore(env, core) && ValidMutation(m) && m.id !in core.receipts && !InLog(core.log, m.id)
    ensures var r := Deliver(env, core, m, now);
            r.Ok? ==> GoodCore(env, r.value.0) && Grew(core, r.value.0, [m])
                      && r.value.0.receipts == core.receipts[m.id := Receipt(m, r.value.1.revision)]
                      && r.value.1.mutationId == m.id
  {
    hide GoodCore, Canonicalize, RecordGroup, Record, ValidBody, Grew;
    ValidMutationParts(m);
    GoodHasReceipts(env, core);
    var canonical := Canonicalize(core.entities, m.changes);
    if canonical.Ok? {
      var next := RecordGroup(env, core, m.id, canonical.value, true, now);
      RecordGroupKeeps(env, core, m.id, m.changes, true, now);
      if next.Ok? {
        var after := next.value.(receipts := core.receipts[m.id := Receipt(m, |core.log| + 1)]);
        NewReceipt(core, m, canonical.value, after);
        ReceiptIsGood(env, next.value, after);
      }
    }
  }

  lemma DeliverKeeps(env: Env, core: Core, m: Mutation, now: nat)
    requires GoodCore(env, core) && ValidMutation(m) && !IdReused(core, m)
    ensures var r := Deliver(env, core, m, now);
            r.Ok? ==>
              && GoodCore(env, r.value.0) && Grew(core, r.value.0, [m])
              && m.id in r.value.0.receipts && r.value.0.receipts[m.id] == Receipt(m, r.value.1.revision)
              && r.value.1.mutationId == m.id
  {
    if m.id !in core.receipts {
      DeliverNew(env, core, m, now);
    }
  }

  lemma NewReceipt(core: Core, m: Mutation, canonical: seq<Change>, after: Core)
    requires GoodReceipts(core) && m.id !in core.receipts
    requires after.log == core.log + [Group(m.id, canonical)] && after.activated == core.activated
    requires after.receipts == core.receipts[m.id := Receipt(m, |core.log| + 1)]
    ensures GoodReceipts(after) && Grew(core, after, [m])
  {
    hide InLog;
    assert [m][0].id == m.id;
    forall id | InLog(after.log, id) ensures InLog(core.log, id) || Named([m], id) {
      OneMoreInLog(core.log, Group(m.id, canonical), id);
    }
  }

  lemma OneMoreInLog(log: seq<Group>, g: Group, id: MutationId)
    ensures InLog(log + [g], id) <==> InLog(log, id) || g.mutationId == id
  {
    var all := log + [g];
    if InLog(log, id) {
      var i :| 0 <= i < |log| && log[i].mutationId == id;
      assert all[i] == log[i];
    }
    assert all[|log|] == g;
  }

  ghost predicate DistinctMutations(ms: seq<Mutation>) {
    forall i, j :: 0 <= i < j < |ms| ==> ms[i].id != ms[j].id
  }

  lemma GrewTransitive(a: Core, b: Core, c: Core, ms: seq<Mutation>, m: Mutation)
    requires Grew(a, b, ms) && Grew(b, c, [m])
    ensures Grew(a, c, ms + [m])
  {
    forall id | Named(ms, id) || Named([m], id) ensures Named(ms + [m], id) {
      if i :| 0 <= i < |ms| && ms[i].id == id {
        assert (ms + [m])[i].id == id;
      } else {
        assert (ms + [m])[|ms|].id == id;
      }
    }
  }

  ghost predicate Answered(core: Core, ms: seq<Mutation>, acks: seq<Ack>) {
    && |acks| == |ms|
    && forall i :: 0 <= i < |ms| ==>
         && acks[i].mutationId == ms[i].id
         && ms[i].id in core.receipts
         && core.receipts[ms[i].id] == Receipt(ms[i], acks[i].revision)
  }

  lemma AnsweredGrows(done: Core, next: Core, ms: seq<Mutation>, acks: seq<Ack>, ack: Ack)
    requires ms != [] && Answered(done, ms[..|ms| - 1], acks) && Grew(done, next, [ms[|ms| - 1]])
    requires var m := ms[|ms| - 1];
             ack.mutationId == m.id && m.id in next.receipts && next.receipts[m.id] == Receipt(m, ack.revision)
    ensures Answered(next, ms, acks + [ack])
  {
    assert forall i :: 0 <= i < |ms| - 1 ==> ms[..|ms| - 1][i] == ms[i];
  }

  ghost predicate Deliverable(core: Core, ms: seq<Mutation>) {
    DistinctMutations(ms) && forall i :: 0 <= i < |ms| ==> ValidMutation(ms[i]) && !IdReused(core, ms[i])
  }

  lemma DeliverablePrefix(core: Core, ms: seq<Mutation>)
    requires Deliverable(core, ms) && ms != []
    ensures Deliverable(core, ms[..|ms| - 1])
  {
  }

  lemma DeliverableLast(core: Core, ms: seq<Mutation>)
    requires Deliverable(core, ms) && ms != []
    ensures DistinctMutations(ms) && ValidMutation(ms[|ms| - 1]) && !IdReused(core, ms[|ms| - 1])
  {
  }

  lemma NothingDelivered(core: Core)
    ensures Grew(core, core, []) && Answered(core, [], [])
  {
  }

  lemma {:induction false} DeliverAllKeeps(env: Env, core: Core, ms: seq<Mutation>, now: nat)
    requires GoodCore(env, core) && Deliverable(core, ms)
    ensures var r := DeliverAll(env, core, ms, now);
            r.Ok? ==>
              && GoodCore(env, r.value.core) && Grew(core, r.value.core, ms)
              && Answered(r.value.core, ms, r.value.acks)
  {
    hide GoodCore, Deliverable, Deliver, ValidMutation, IdReused, DistinctMutations, Grew, Answered;
    if ms == [] {
      NothingDelivered(core);
    } else {
      var init, last := ms[..|ms| - 1], ms[|ms| - 1];
      DeliverablePrefix(core, ms);
      DeliverableLast(core, ms);
      DeliverAllKeeps(env, core, init, now);
      var d := DeliverAll(env, core, init, now);
      if d.Ok? {
        StillFresh(core, d.value.core, ms);
        DeliverKeeps(env, d.value.core, last, now);
        assert ms == init + [last];
        var one := Deliver(env, d.value.core, last, now);
        if one.Ok? {
          GrewTransitive(core, d.value.core, one.value.0, init, last);
          AnsweredGrows(d.value.core, one.value.0, ms, d.value.acks, one.value.1);
        }
      }
    }
  }

  lemma StillFresh(core: Core, done: Core, ms: seq<Mutation>)
    requires ms != [] && DistinctMutations(ms) && Grew(core, done, ms[..|ms| - 1])
    requires !IdReused(core, ms[|ms| - 1])
    ensures !IdReused(done, ms[|ms| - 1])
  {
    var init, last := ms[..|ms| - 1], ms[|ms| - 1];
    assert forall i :: 0 <= i < |init| ==> init[i] == ms[i];
  }

  // ---------- Protocol v1 ----------

  lemma RecordInternalKeeps(env: Env, core: Core, id: MutationId, comic: Comic)
    requires GoodCore(env, core) && ValidEnv(env) && ValidComic(comic) && !id.Text?
    ensures var r := RecordInternal(env, core, id, V1Changes(env, comic));
            r.Ok? ==> GoodCore(env, r.value)
                      && r.value.comics == core.comics && r.value.activated == core.activated
                      && r.value.receipts == core.receipts && core.log <= r.value.log
  {
    hide GoodCore, Canonicalize, RecordGroup, Record, ValidBody, Sanitize, ValidEnv, ValidComic;
    SanitizedBodiesAreValid(env, comic);
    if !InLog(core.log, id) && Canonicalize(core.entities, V1Changes(env, comic)).Ok? {
      RecordGroupKeeps(env, core, id, V1Changes(env, comic), false, 0);
    }
  }

  lemma WriteV1Keeps(env: Env, core: Core, c: Comic)
    requires GoodCore(env, core) && ValidEnv(env) && ValidComic(c)
    ensures var r := WriteV1(env, core, c);
            r.Ok? ==> GoodCore(env, r.value) && r.value.activated == core.activated
                      && r.value.receipts == core.receipts && core.log <= r.value.log
  {
    hide GoodCore, RecordInternal, UpsertComic, ValidComic, ValidComics, ValidEnv, V1Changes;
    if IsNewer(core.comics, c) {
      GoodIsValid(env, core);
      UpsertKeepsValid(core.comics, c);
      NewComicsAreGood(env, core, UpsertComic(core.comics, c));
      RecordInternalKeeps(env, core.(comics := UpsertComic(core.comics, c)), V1Write(c), c);
    }
  }

  lemma {:induction false} CleanAllIsValid(raws: seq<Comic>)
    ensures CleanAll(raws).Some? ==>
              |CleanAll(raws).value| == |raws|
              && forall i :: 0 <= i < |raws| ==> ValidComic(CleanAll(raws).value[i])
  {
    if raws != [] {
      CleanAllIsValid(raws[..|raws| - 1]);
      ValidateComicIsIdempotent(raws[|raws| - 1]);
    }
  }

  lemma {:induction false} WriteAllV1Keeps(env: Env, core: Core, cs: seq<Comic>)
    requires GoodCore(env, core) && ValidEnv(env) && forall i :: 0 <= i < |cs| ==> ValidComic(cs[i])
    ensures var r := WriteAllV1(env, core, cs);
            r.Ok? ==> GoodCore(env, r.value) && r.value.activated == core.activated
                      && r.value.receipts == core.receipts && core.log <= r.value.log
  {
    if cs != [] {
      WriteAllV1Keeps(env, core, cs[..|cs| - 1]);
      var d := WriteAllV1(env, core, cs[..|cs| - 1]);
      if d.Ok? {
        WriteV1Keeps(env, d.value, cs[|cs| - 1]);
      }
    }
  }

  lemma SyncV1Keeps(env: Env, core: Core, raws: seq<Comic>)
    requires GoodCore(env, core) && ValidEnv(env)
    ensures var r := SyncV1(env, core, raws);
            r.Ok? ==> GoodCore(env, r.value) && r.value.activated == core.activated
                      && r.value.receipts == core.receipts && core.log <= r.value.log
    ensures core.activated && SyncV1(env, core, raws).Ok? ==> SyncV1(env, core, raws).value == core
  {
    CleanAllIsValid(raws);
    if CleanAll(raws).Some? {
      WriteAllV1Keeps(env, core, CleanAll(raws).value);
    }
  }

  lemma {:induction false} BootstrapKeeps(env: Env, core: Core, ids: seq<string>)
    requires GoodCore(env, core) && ValidEnv(env) && forall id :: id in ids ==> id in core.comics
    ensures BootstrapRows(env, core, ids).Ok? ==> GoodCore(env, BootstrapRows(env, core, ids).value)
  {
    hide GoodCore, RecordInternal, ValidateComic, ValidEnv, V1Changes;
    GoodIsValid(env, core);
    if ids != [] {
      var init, last := ids[..|ids| - 1], ids[|ids| - 1];
      BootstrapKeeps(env, core, init);
      var d := BootstrapRows(env, core, init);
      assert last in ids && ValidComic(core.comics[last]);
      if d.Ok? {
        RecordInternalKeeps(env, d.value, Bootstrap(core.comics[last]), core.comics[last]);
      }
    }
  }

  lemma EmptyIsGood(env: Env, comics: Comics)
    requires ValidComics(comics)
    ensures GoodCore(env, Core([], map[], map[], comics, false))
  {
  }

  lemma OpenedIsGood(env: Env, comics: Comics)
    requires ValidEnv(env) && ValidComics(comics)
    ensures Opened(env, comics).Ok? ==> GoodCore(env, Opened(env, comics).value)
  {
    EmptyIsGood(env, comics);
    BootstrapKeeps(env, Core([], map[], map[], comics, false), SortedTexts(comics.Keys));
  }
}
