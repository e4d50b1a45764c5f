/** The sync store itself: tables updated step by step, each operation proved against the state
    machine of SyncState, and the invariant of every run kept by each of them. */
module SyncStore {
  import opened Basics
  import opened Utf8
  import opened SyncTypes
  import opened Canonical
  import opened Authority
  import opened Projection
  import opened V1Bridge
  import opened Paging
  import opened RequestCache
  import opened SyncState
  import opened SyncInvariant
  import opened SyncRuns
  import opened StoreLemmas
  import opened GroupContents
  import opened FlatRows

  class Store {
    const env: Env
    const serverId: string
    var log: seq<Group>
    var entities: Entities
    var receipts: map<MutationId, Receipt>
    var comics: Comics
    var activated: bool
    var requests: Cache

    function Tables(): Core
      reads this
    {
      Core(log, entities, receipts, comics, activated)
    }

    function Contents(): State
      reads this
    {
      State(Tables(), requests)
    }

    ghost predicate Valid()
      reads this
    {
      ValidEnv(env) && GoodState(env, Contents())
    }

    // A store over a database that holds only flat comics; Bootstrap completes it.
    constructor (env: Env, serverId: string, comics: Comics)
      requires ValidEnv(env) && ValidComics(comics)
      ensures Valid() && this.env == env && this.serverId == serverId
      ensures Contents() == State(Core([], map[], map[], comics, false), [])
    {
      this.env := env;
      this.serverId := serverId;
      this.log := [];
      this.entities := map[];
      this.receipts := map[];
      this.comics := comics;
      this.activated := false;
      this.requests := [];
      new;
      EmptyIsGood(env, comics);
      assert GoodCache(log, requests);
    }

    // ---------- Canonical groups ----------

    // How many copies of the issue are active once the changes are stored.
    method CountActive(cs: seq<Change>, issue: string) returns (active: nat)
      ensures DistinctKeys(cs) ==> active == |MergedActive(entities, cs, issue)|
    {
      var copies := map k | k in entities && IsCopyOf(entities[k].data,
                                                      issue) :: IsActiveCopy(entities[k].op, entities[k].data);
      assert cs[..0] == [];
      for i := 0 to |cs|
        invariant copies == ActiveRows(entities, cs[..i], issue)
      {
        assert cs[..i + 1][..i] == cs[..i];
        if IsCopyOf(cs[i].data, issue) {
          copies := copies[KeyOf(cs[i]) := IsActiveCopy(cs[i].op, cs[i].data)];
        }
      }
      assert cs[..|cs|] == cs;
      var counted := set k | k in copies && copies[k];
      active := |counted|;
      if DistinctKeys(cs) {
        ActiveRowsAreMerged(entities, cs, issue);
        assert counted == MergedActive(entities, cs, issue);
      }
    }

    // _normalize_copy_authority
    method NormalizeCopyAuthority(cs: seq<Change>) returns (out: seq<Change>)
      requires WellNamed(cs)
      ensures KeysKept(cs, out)
      ensures DistinctKeys(cs) ==> out == Normalized(entities, cs)
    {
      hide AddedFor, NormalizeOne, NormalizedUpTo, MergedActive, MissingEntries, CopyChanges, ImpliedEntry,
           NormalizeEntry, Normalized, SortedTexts, Concerned;
      var ids := SortedTexts(Concerned(cs));
      out := cs;
      NothingNormalized(entities, cs);
      assert ids[..0] == [];
      for i := 0 to |ids|
        invariant KeysKept(cs, out)
        invariant DistinctKeys(cs) ==> out == NormalizedUpTo(entities, cs, ids[..i])
      {
        var issue := ids[i];
        ghost var done := ids[..i];
        assert ids[..i + 1] == done + [issue] && issue !in done;
        var active := CountActive(cs, issue);
        var at := EntryAt(out, issue);
        EntryUpTo(entities, cs, done, issue);
        if at < |out| {
          if DistinctKeys(cs) {
            StepAtEntry(entities, cs, done, issue, at);
            NormalizeAtEntry(cs, cs[at], active);
          }
          out := out[at := NormalizeEntry(entities, out[at], active)];
        } else if CopyChanges(cs, issue) != [] {
          if DistinctKeys(cs) {
            StepWithoutEntry(entities, cs, done, issue);
            NormalizeImplied(cs, issue, active);
          }
          out := out + [NormalizeEntry(entities, ImpliedEntry(entities, cs, issue), active)];
        } else if DistinctKeys(cs) {
          StepWithoutEntry(entities, cs, done, issue);
        }
      }
      assert ids[..|ids|] == ids;
      NormalizedInTheEnd(entities, cs);
    }

    lemma NormalizeAtEntry(cs: seq<Change>, c: Change, active: nat)
      requires c.data.Entry? && active == |MergedActive(entities, cs, c.id)|
      ensures NormalizeOne(entities, cs, c) == NormalizeEntry(entities, c, active)
    {
    }

    lemma NormalizeImplied(cs: seq<Change>, issue: string, active: nat)
      requires active == |MergedActive(entities, cs, issue)|
      ensures AddedEntry(entities, cs, issue) == NormalizeEntry(entities, ImpliedEntry(entities, cs, issue), active)
    {
    }

    // The custom issues of a mutation, in order.
    method IssuesOf(cs: seq<Change>) returns (issues: seq<Change>)
      ensures issues == IssueChanges(cs)
    {
      issues := [];
      assert cs[..0] == [];
      for i := 0 to |cs|
        invariant issues == IssueChanges(cs[..i])
      {
        assert cs[..i + 1][..i] == cs[..i];
        if cs[i].data.Issue? {
          issues := issues + [CanonicalChange(cs[i])];
        }
      }
      assert cs[..|cs|] == cs;
    }

    // The other changes, unless one moves a copy or refers to an issue nobody describes.
    method OthersOf(cs: seq<Change>) returns (others: Option<seq<Change>>)
      ensures if exists c :: c in cs && !Acceptable(entities, cs, c) then others == None
              else others == Some(OtherChanges(cs))
    {
      hide KindOf, ChangeIssue, HintOf;
      var explicit := set c | c in cs && c.data.Issue? :: c.id;
      var accepted: seq<Change> := [];
      assert cs[..0] == [];
      for i := 0 to |cs|
        invariant accepted == OtherChanges(cs[..i])
        invariant forall j :: 0 <= j < i ==> Acceptable(entities, cs, cs[j])
      {
        assert cs[..i + 1][..i] == cs[..i];
        var c := cs[i];
        assert c in cs;
        if !c.data.Issue? {
          var issue := ChangeIssue(c);
          if c.data.Copy? && KeyOf(c) in entities && !IsCopyOf(entities[KeyOf(c)].data, issue) {
            return None;
          }
          if issue !in explicit && Key(CustomIssue, issue) !in entities && HintOf(c.data).None? {
            return None;
          }
          accepted := accepted + [c];
        }
      }
      assert cs[..|cs|] == cs;
      return Some(accepted);
    }

    // _canonicalize_group
    method CanonicalizeGroup(cs: seq<Change>) returns (r: Result<seq<Change>, SyncError>)
      requires AllValidBodies(cs)
      ensures r == Canonicalize(entities, cs)
      ensures r.Ok? <==> ChangesOnce(cs) && MovesNoCopy(entities, cs) && DescribesUnknown(entities, cs)
      ensures r.Err? ==> r.error == InvalidRequest
    {
      AcceptedIff(entities, cs);
      hide ChangesOnce, MovesNoCopy, DescribesUnknown, Normalized, ValidBody, KeysKept, DistinctKeys, WellNamed, Acceptable, Keys;
      var issues := IssuesOf(cs);
      var others := OthersOf(cs);
      if others.None? {
        return Err(InvalidRequest);
      }
      OrderedIsWellNamed(cs);
      var normalized := NormalizeCopyAuthority(issues + others.value);
      var keys := Keys(normalized);
      CanonicalizeOutcome(cs, normalized);
      r := if |keys| != |normalized| then Err(InvalidRequest) else Ok(normalized);
    }

    lemma CanonicalizeOutcome(cs: seq<Change>, normalized: seq<Change>)
      requires forall c :: c in cs ==> Acceptable(entities, cs, c)
      requires KeysKept(Ordered(cs), normalized)
      requires DistinctKeys(Ordered(cs)) ==> normalized == Normalized(entities, Ordered(cs))
      ensures Canonicalize(entities, cs)
              == if |Keys(normalized)| != |normalized| then Err(InvalidRequest) else Ok(normalized)
    {
      hide Normalized, Ordered, Acceptable, Keys, KeysKept, DistinctKeys;
      var base := Ordered(cs);
      DistinctByCount(normalized);
      NormalizedKeepsKeys(entities, base);
      if DistinctKeys(normalized) {
        KeptDuplicates(base, normalized);
      }
      if DistinctKeys(Normalized(entities, base)) {
        KeptDuplicates(base, Normalized(entities, base));
      }
    }

    lemma OrderedIsWellNamed(cs: seq<Change>)
      requires AllValidBodies(cs)
      ensures WellNamed(Ordered(cs))
    {
      OrderedMembers(cs);
      forall c | c in Ordered(cs)
        ensures c.data.Entry? ==> c.data.entry.issueId == c.id
        ensures c.data.Entry? || c.data.Copy? ==> ChangeIssue(c) != ""
      {
        var d :| d in cs && CanonicalChange(d) == c;
        assert ValidBody(d);
      }
    }

    // ---------- The flat row of one issue ----------

    // The copies of the issue that are no tombstones, sorted by ordinal and id.
    method SelectCopies(issue: string) returns (copies: map<Key, CopyData>, q: seq<Key>)
      ensures copies == ViewOf(entities, issue).copies && SortedCopies(copies, q)
    {
      hide Before;
      copies := map k | k in entities && IsCopyOf(entities[k].data,
                                                  issue) && entities[k].op.Upsert? :: entities[k].data.copy;
      q := [];
      var rest := copies.Keys;
      while rest != {}
        invariant rest <= copies.Keys
        invariant forall k :: k in q <==> k in copies && k !in rest
        invariant forall i, j :: 0 <= i < j < |q| ==> q[i] in copies && q[j] in copies && q[i] != q[j] && Before(copies, q[i], q[j])
        decreases |rest|
      {
        var k :| k in rest;
        var at := PlaceOf(copies, q, k);
        InsertSorted(copies, q, k, at);
        q := q[..at] + [k] + q[at..];
        rest := rest - {k};
      }
    }

    // Where a copy goes: behind all that come before it.
    method PlaceOf(copies: map<Key, CopyData>, q: seq<Key>, k: Key) returns (at: nat)
      requires k in copies && (forall x :: x in q ==> x in copies)
      requires forall i, j :: 0 <= i < j < |q| ==> Before(copies, q[i], q[j])
      ensures at <= |q|
      ensures forall i :: 0 <= i < at ==> Before(copies, q[i], k)
      ensures forall i :: at <= i < |q| ==> Before(copies, k, q[i])
    {
      hide Before;
      at := |q|;
      while at > 0 && !Before(copies, q[at - 1], k)
        invariant at <= |q|
        invariant forall i :: at <= i < |q| ==> Before(copies, k, q[i])
      {
        at := at - 1;
        BeforeOrders(copies, q[at], k, k);
      }
      forall i | 0 <= i < at ensures Before(copies, q[i], k) {
        if i < at - 1 {
          BeforeOrders(copies, q[i], q[at - 1], k);
        }
      }
    }

    // The first copy of the order that is wanted, and how many are.
    method FirstAmong(copies: map<Key, CopyData>, q: seq<Key>, wanted: set<Key>) returns (first: Option<Key>, count: nat)
      requires SortedCopies(copies, q) && wanted <= copies.Keys && forall k :: k in copies ==> k.kind == PhysicalCopy
      ensures count == |wanted|
      ensures first == if wanted == {} then None else Some(First(copies, wanted))
    {
      hide Before, First, SortedCopies;
      first, count := None, 0;
      NoneSeen(q, wanted);
      for i := 0 to |q|
        invariant count == |Seen(q, wanted, i)|
        invariant first.None? ==> forall j :: 0 <= j < i ==> q[j] !in wanted
        invariant first.Some? ==> wanted != {} && first == Some(First(copies, wanted))
      {
        DistinctOrder(copies, q);
        SeenStep(q, wanted, i);
        if q[i] in wanted {
          if first.None? {
            FirstInOrder(copies, q, wanted, i);
            first := Some(q[i]);
          }
          count := count + 1;
        }
      }
      AllSeen(copies, q, wanted);
    }

    // What the entities say about one issue, row by row: its copies, how many are active, the one
    // the flat row shows, and the first hint among them.
    method ReadCopies(issue: string) returns (active: nat, primary: Option<CopyData>, hint: Option<Hint>)
      requires WellKeyed(entities)
      ensures var v := ViewOf(entities, issue);
              && active == |ActiveKeys(v.copies)| && primary == Primary(v.copies)
              && hint == if HintedKeys(v.copies) == {} then None else v.copies[First(v.copies, HintedKeys(v.copies))].hint
    {
      hide First, Before, SortedCopies;
      var copies, q := SelectCopies(issue);
      assert forall k :: k in copies ==> k.kind == PhysicalCopy;
      var hinted, _ := FirstAmong(copies, q, HintedKeys(copies));
      hint := if hinted.Some? then copies[hinted.value].hint else None;
      var firstActive, count := FirstAmong(copies, q, ActiveKeys(copies));
      active := count;
      var first, _ := FirstAmong(copies, q, copies.Keys);
      primary :=
        if firstActive.Some? then Some(copies[firstActive.value])
        else if first.Some? then Some(copies[first.value])
        else None;
    }

    // The row of an issue before validate_comic, or none if nothing is projected.
    method FlatRow(issue: string, existing: Option<Comic>, now: nat) returns (row: Option<Comic>)
      requires WellKeyed(entities)
      ensures var v := ViewOf(entities, issue);
              if Projects(v, existing)
              then row == Some(Row(v, issue, if existing.Some? then existing.value.coverAsset else "", NextUpdate(existing, now)))
              else row == None
      ensures row.Some? ==>
                && ShowsIssue(entities, issue, row.value) && ShowsEntry(entities, issue, row.value)
                && ShowsCopies(entities, issue, row.value) && IsNextTime(existing, now, row.value.updatedAt)
    {
      hide First, ActiveKeys, HintedKeys, Primary, NextUpdate, ShowsIssue, ShowsEntry, ShowsCopies, IsNextTime;
      var i, e := Find(entities, CustomIssue, issue), Find(entities, CollectionEntry, issue);
      ghost var v := ViewOf(entities, issue);
      assert v.issue == if i.Some? then Some(i.value.data.issue) else None;
      assert v.entry == if e.Some? then Some(e.value.data.entry) else None;
      if e.None? && existing.None? {
        return None;
      }
      var active, primary, copyHint := ReadCopies(issue);
      var hint := if e.Some? && e.value.data.entry.hint.Some? then e.value.data.entry.hint else copyHint;
      if i.None? && hint.None? {
        return None;
      }
      var shown := if i.Some? then i.value.data.issue else HintAsIssue(hint.value);
      var cover := if existing.Some? then existing.value.coverAsset else "";
      FlatIsRow(v, issue, shown, active, cover, NextUpdate(existing, now));
      RowShowsIssue(entities, issue, issue, cover, NextUpdate(existing, now));
      RowShowsEntry(entities, issue, issue, cover, NextUpdate(existing, now));
      RowShowsCopies(entities, issue, issue, cover, NextUpdate(existing, now));
      NextUpdateIsNext(existing, now);
      return Some(Flat(issue, shown, i.Some? && i.value.op.Delete?, if e.Some? then Some(e.value.data.entry) else None,
                       e.Some? && e.value.op.Delete?, active, primary, cover, NextUpdate(existing, now)));
    }

    // _refresh_v1_projection
    method RefreshProjection(issue: string, now: nat) returns (error: Option<SyncError>)
      requires WellKeyed(entities)
      modifies this`comics
      ensures match Refresh(entities, old(comics), issue, now)
              case Ok(rows) => error == None && comics == rows
              case Err(e) => error == Some(e)
    {
      hide ViewOf, Row, Projects, ValidateComic, WellKeyed, UpsertComic, NextUpdate;
      var row := FlatRow(issue, ExistingRow(comics, issue), now);
      if row.None? {
        return None;
      }
      var clean := ValidateComic(row.value);
      if clean.None? {
        return Some(InternalError);
      }
      comics := UpsertComic(comics, clean.value);
      return None;
    }

    // ---------- Recording a group ----------

    // The upserts of a group, and the issues it affects.
    method StoreChanges(canonical: seq<Change>, revision: nat) returns (affected: set<string>)
      modifies this`entities
      ensures entities == Record(old(entities), canonical, revision)
      ensures affected == Affected(canonical)
    {
      affected := {};
      assert canonical[..0] == [];
      for i := 0 to |canonical|
        invariant entities == Record(old(entities), canonical[..i], revision)
        invariant affected == Affected(canonical[..i])
      {
        var change := canonical[i];
        assert canonical[..i + 1][..i] == canonical[..i];
        assert canonical[..i + 1] == canonical[..i] + [change];
        entities := entities[KeyOf(change) := Entity(change.op, change.data, revision)];
        if ChangeIssue(change) != "" {
          affected := affected + {ChangeIssue(change)};
        }
      }
      assert canonical[..|canonical|] == canonical;
    }

    // _record_group
    method RecordGroup(id: MutationId, canonical: seq<Change>, projectV1: bool, now: nat)
      returns (r: Result<nat, SyncError>)
      requires projectV1 ==> WellKeyed(Record(entities, canonical, |log| + 1))
      modifies this`log, this`entities, this`comics
      ensures match SyncState.RecordGroup(env, old(Tables()), id, canonical, projectV1, now)
              case Ok(core) => Tables() == core && r == Ok(|log|)
              case Err(e) => r == Err(e)
    {
      hide RefreshAll, WellKeyed, SortedTexts, ChangesBytes, Record, Affected;
      if ChangesBytes(env, canonical) > MAX_V2_GROUP_BYTES {
        return Err(MutationTooLarge);
      }
      var revision := |log| + 1;
      log := log + [Group(id, [])];
      var affected := StoreChanges(canonical, revision);
      log := log[revision - 1 := Group(id, canonical)];
      assert log == old(log) + [Group(id, canonical)];
      if projectV1 {
        var error := RefreshIssues(SortedTexts(affected), now);
        if error.Some? {
          return Err(error.value);
        }
      }
      return Ok(revision);
    }

    method RefreshIssues(issues: seq<string>, now: nat) returns (error: Option<SyncError>)
      requires WellKeyed(entities)
      modifies this`comics
      ensures match RefreshAll(entities, old(comics), issues, now)
              case Ok(rows) => error == None && comics == rows
              case Err(e) => error == Some(e)
    {
      hide Refresh, WellKeyed;
      assert issues[..0] == [];
      for i := 0 to |issues|
        invariant RefreshAll(entities, old(comics), issues[..i], now) == Ok(comics)
      {
        assert issues[..i + 1][..i] == issues[..i];
        error := RefreshProjection(issues[i], now);
        if error.Some? {
          RefreshFailsEarly(entities, old(comics), issues, i + 1, now);
          return;
        }
      }
      assert issues[..|issues|] == issues;
      return None;
    }

    // _record_internal_group
    method RecordInternal(id: MutationId, changes: seq<Change>) returns (error: Option<SyncError>)
      requires AllValidBodies(changes)
      modifies this`log, this`entities, this`comics
      ensures match SyncState.RecordInternal(env, old(Tables()), id, changes)
              case Ok(core) => error == None && Tables() == core
              case Err(e) => error == Some(e)
    {
      hide Canonicalize, SyncState.RecordGroup;
      if InLog(log, id) {
        return None;
      }
      var canonical := CanonicalizeGroup(changes);
      if canonical.Err? {
        return Some(InternalError);
      }
      var r := RecordGroup(id, canonical.value, false, 0);
      return if r.Ok? then None else Some(r.error);
    }

    // A failed transaction is rolled back.
    method Rollback(saved: State)
      modifies this
      ensures Contents() == saved
    {
      log, entities, receipts, comics, activated :=
        saved.core.log, saved.core.entities, saved.core.receipts, saved.core.comics, saved.core.activated;
      requests := saved.cache;
    }

    // ---------- Protocol v1 ----------

    // _bootstrap_v1
    method Bootstrap() returns (error: Option<SyncError>)
      requires Valid() && log == []
      modifies this
      ensures Valid()
      ensures match BootstrapRows(env, old(Tables()), SortedTexts(old(comics).Keys))
              case Ok(core) => error == None && Contents() == State(core, old(requests))
              case Err(e) => error == Some(e) && Contents() == old(Contents())
    {
      hide SyncState.RecordInternal, GoodCore, GoodCache, ValidateComic, ValidEnv, SortedTexts;
      var saved := Contents();
      var ids := SortedTexts(comics.Keys);
      BootstrapStays(ids);
      error := BootstrapAll(ids);
      if error.Some? {
        Rollback(saved);
      }
    }

    // __init__: a store over a flat table, bridged as a whole, or the error that keeps it from opening
    static method Open(env: Env, serverId: string, comics: Comics) returns (r: Result<Store, SyncError>)
      requires ValidEnv(env) && ValidComics(comics)
      ensures match SyncState.Opened(env, comics)
              case Ok(core) =>
                && r.Ok? && fresh(r.value) && r.value.Valid() && r.value.env == env && r.value.serverId == serverId
                && r.value.Contents() == State(core, [])
              case Err(e) => r == Err(e)
    {
      hide BootstrapRows, ValidEnv, ValidComics, GoodState, SortedTexts;
      var store := new Store(env, serverId, comics);
      var error := store.Bootstrap();
      return if error.Some? then Err(error.value) else Ok(store);
    }

    lemma BootstrapStays(ids: seq<string>)
      requires Valid() && log == [] && forall id :: id in ids ==> id in comics
      ensures BootstrapRows(env, Tables(), ids).Ok? ==>
                ValidEnv(env) && GoodState(env, State(BootstrapRows(env, Tables(), ids).value, requests))
    {
      hide GoodCore, ValidEnv, BootstrapRows;
      BootstrapKeeps(env, Tables(), ids);
      if BootstrapRows(env, Tables(), ids).Ok? {
        CacheLater(log, BootstrapRows(env, Tables(), ids).value.log, requests);
      }
    }

    method BootstrapAll(ids: seq<string>) returns (error: Option<SyncError>)
      requires Valid() && forall id :: id in ids ==> id in comics
      modifies this`log, this`entities, this`comics
      ensures match BootstrapRows(env, old(Tables()), ids)
              case Ok(core) => error == None && Tables() == core
              case Err(e) => error == Some(e)
    {
      hide SyncState.RecordInternal, ValidEnv, GoodState, V1Changes, AllValidBodies, ValidateComic;
      ghost var start := Tables();
      RowsAreValid();
      assert ids[..0] == [];
      for i := 0 to |ids|
        invariant BootstrapRows(env, start, ids[..i]) == Ok(Tables())
      {
        assert ids[..i + 1][..i] == ids[..i] && ids[i] in ids;
        assert ValidComic(start.comics[ids[i]]);
        var clean := ValidateComic(comics[ids[i]]).value;
        BridgedBodies(clean);
        error := RecordInternal(MutationId.Bootstrap(clean), V1Changes(env, clean));
        if error.Some? {
          BootstrapFailsEarly(env, start, ids, i + 1);
          return;
        }
      }
      assert ids[..|ids|] == ids;
      return None;
    }

    lemma BridgedBodies(clean: Comic)
      requires ValidEnv(env) && ValidComic(clean)
      ensures AllValidBodies(V1Changes(env, clean))
    {
      hide ValidBody, V1Changes, ValidEnv, ValidComic;
      SanitizedBodiesAreValid(env, clean);
    }

    // Store.sync
    method Sync(since: int, raws: seq<Comic>, now: nat) returns (r: Result<V1Answer, SyncError>)
      requires Valid()
      modifies this
      ensures Valid()
      ensures !(0 <= since <= MAX_INT64) ==> r == Err(InvalidRequest) && Contents() == old(Contents())
      ensures 0 <= since <= MAX_INT64 ==>
                match SyncV1(env, old(Tables()), raws)
                case Ok(core) =>
                  r.Ok? && Contents() == State(core, old(requests)) && IsV1Answer(core.comics, since, now, r.value)
                case Err(e) => r == Err(e) && Contents() == old(Contents())
    {
      hide SyncV1, GoodState, ValidEnv, IsV1Answer;
      if !(0 <= since <= MAX_INT64) {
        return Err(InvalidRequest);
      }
      var error := Write(raws);
      if error.Some? {
        return Err(error.value);
      }
      RowsAreValid();
      var answer := RowsSince(since, now);
      return Ok(answer);
    }

    lemma RowsAreValid()
      requires Valid()
      ensures ValidComics(comics)
    {
      hide GoodHistory, GoodTables, GoodCache, ValidEnv, ValidComics;
    }

    // SELECT * FROM comics WHERE updated_at > ? ORDER BY updated_at, and the time of the answer
    method RowsSince(since: int, now: nat) returns (answer: V1Answer)
      requires ValidComics(comics)
      ensures IsV1Answer(comics, since, now, answer)
    {
      hide PlaceRow, SortedTexts, ValidComic, OldestFirst, IsNewRow;
      var ids := SortedTexts(comics.Keys);
      var rows: seq<Comic>, latest: int := [], now;
      assert ids[..0] == [];
      NoRows(since);
      for i := 0 to |ids|
        invariant OldestFirst(rows)
        invariant forall c :: c in rows <==> IsNewRow(ids[..i], since, c)
        invariant latest >= now && forall id :: id in ids[..i] ==> comics[id].updatedAt <= latest
        invariant latest == now || exists id :: id in comics && comics[id].updatedAt == latest
      {
        assert ids[..i + 1] == ids[..i] + [ids[i]] && ids[i] in comics;
        var row := comics[ids[i]];
        OneMoreRow(ids, i, since);
        if row.updatedAt > since {
          PlaceRowKeepsOrder(rows, row);
          rows := PlaceRow(rows, row);
        }
        latest := Max(latest, row.updatedAt);
      }
      assert ids[..|ids|] == ids;
      RowsAreAnswer(ids, since, now, V1Answer(latest, rows));
      return V1Answer(latest, rows);
    }

    lemma NoRows(since: int)
      ensures OldestFirst([]) && forall c :: !IsNewRow([], since, c)
    {
    }

    lemma OneMoreRow(ids: seq<string>, i: nat, since: int)
      requires ValidComics(comics) && i < |ids| && ids[i] in comics && ids[i] !in ids[..i]
      ensures forall c :: IsNewRow(ids[..i + 1], since, c) <==>
                IsNewRow(ids[..i], since, c) || (c == comics[ids[i]] && c.updatedAt > since)
      ensures forall c :: IsNewRow(ids[..i], since, c) ==> c.id != comics[ids[i]].id
    {
      hide ValidComic;
      assert ids[..i + 1] == ids[..i] + [ids[i]];
    }

    lemma RowsAreAnswer(ids: seq<string>, since: int, now: nat, a: V1Answer)
      requires OldestFirst(a.rows) && (forall c :: c in a.rows <==> IsNewRow(ids, since, c))
      requires (forall id :: id in ids <==> id in comics) && a.serverTime >= now
      requires forall id :: id in comics ==> comics[id].updatedAt <= a.serverTime
      requires a.serverTime == now || exists id :: id in comics && comics[id].updatedAt == a.serverTime
      ensures IsV1Answer(comics, since, now, a)
    {
    }

    ghost predicate IsNewRow(ids: seq<string>, since: int, c: Comic)
      reads this
    {
      c.id in ids && c.id in comics && comics[c.id] == c && c.updatedAt > since
    }

    // The changes of a v1 call
    method Write(raws: seq<Comic>) returns (error: Option<SyncError>)
      requires Valid()
      modifies this
      ensures Valid()
      ensures match SyncV1(env, old(Tables()), raws)
              case Ok(core) => error == None && Contents() == State(core, old(requests))
              case Err(e) => error == Some(e) && Contents() == old(Contents())
    {
      hide WriteAllV1, GoodCore, GoodCache, ValidEnv, ValidateComic, IsNewer;
      SyncStays(raws);
      var saved := Contents();
      if |raws| > MAX_V1_CHANGES {
        return Some(InvalidRequest);
      }
      var clean := ValidateAll(raws);
      if clean.None? {
        return Some(InvalidRequest);
      }
      if activated {
        for i := 0 to |clean.value|
          invariant forall j :: 0 <= j < i ==> !IsNewer(comics, clean.value[j])
        {
          if IsNewer(comics, clean.value[i]) {
            return Some(V1ReadOnly);
          }
        }
        return None;
      }
      error := WriteAll(clean.value);
      if error.Some? {
        Rollback(saved);
      }
    }

    lemma SyncStays(raws: seq<Comic>)
      requires Valid()
      ensures SyncV1(env, Tables(), raws).Ok? ==>
                ValidEnv(env) && GoodState(env, State(SyncV1(env, Tables(), raws).value, requests))
    {
      hide GoodCore, ValidEnv, SyncV1;
      SyncV1Keeps(env, Tables(), raws);
      if SyncV1(env, Tables(), raws).Ok? {
        CacheLater(log, SyncV1(env, Tables(), raws).value.log, requests);
      }
    }

    method ValidateAll(raws: seq<Comic>) returns (clean: Option<seq<Comic>>)
      ensures clean == CleanAll(raws)
      ensures clean.Some? ==> forall i :: 0 <= i < |clean.value| ==> ValidComic(clean.value[i])
    {
      hide ValidateComic;
      var accepted: seq<Comic> := [];
      assert raws[..0] == [];
      for i := 0 to |raws|
        invariant CleanAll(raws[..i]) == Some(accepted)
      {
        assert raws[..i + 1][..i] == raws[..i];
        var one := ValidateComic(raws[i]);
        if one.None? {
          RefusedEarly(raws, i + 1);
          return None;
        }
        accepted := accepted + [one.value];
      }
      assert raws[..|raws|] == raws;
      CleanAllIsValid(raws);
      return Some(accepted);
    }

    method WriteAll(cs: seq<Comic>) returns (error: Option<SyncError>)
      requires ValidEnv(env) && forall i :: 0 <= i < |cs| ==> ValidComic(cs[i])
      modifies this`log, this`entities, this`comics
      ensures match WriteAllV1(env, old(Tables()), cs)
              case Ok(core) => error == None && Tables() == core
              case Err(e) => error == Some(e)
    {
      hide SyncState.RecordInternal, ValidEnv, V1Changes, AllValidBodies, IsNewer, UpsertComic, ValidComic;
      ghost var start := Tables();
      assert cs[..0] == [];
      for i := 0 to |cs|
        invariant WriteAllV1(env, start, cs[..i]) == Ok(Tables())
      {
        assert cs[..i + 1][..i] == cs[..i];
        var clean := cs[i];
        if IsNewer(comics, clean) {
          BridgedBodies(clean);
          comics := UpsertComic(comics, clean);
          error := RecordInternal(V1Write(clean), V1Changes(env, clean));
          if error.Some? {
            WritesFailEarly(env, start, cs, i + 1);
            return;
          }
        }
      }
      assert cs[..|cs|] == cs;
      return None;
    }

    // ---------- Protocol v2 ----------

    // The receipts of the mutations that were delivered before, unless an id is reused.
    method CheckMutations(ms: seq<Mutation>) returns (known: Option<map<MutationId, nat>>)
      ensures if exists i :: 0 <= i < |ms| && IdReused(Tables(), ms[i]) then known == None
              else known.Some? && IsKnown(Tables(), ms, known.value)
    {
      var found: map<MutationId, nat> := map[];
      for i := 0 to |ms|
        invariant forall j :: 0 <= j < i ==> !IdReused(Tables(), ms[j])
        invariant IsKnown(Tables(), ms[..i], found)
      {
        var m := ms[i];
        assert ms[..i + 1] == ms[..i] + [m];
        if m.id in receipts {
          if receipts[m.id].payload != m {
            return None;
          }
          found := found[m.id := receipts[m.id].revision];
        } else if InLog(log, m.id) {
          return None;
        }
      }
      assert ms[..|ms|] == ms;
      return Some(found);
    }

    // One mutation of a request that was not delivered before.
    method DeliverNew(m: Mutation, now: nat) returns (r: Result<Ack, SyncError>)
      requires GoodTables(Tables()) && ValidMutation(m) && m.id !in receipts
      modifies this`log, this`entities, this`receipts, this`comics
      ensures match Deliver(env, old(Tables()), m, now)
              case Ok(one) => r == Ok(one.1) && Tables() == one.0
              case Err(e) => r == Err(e)
    {
      hide Canonicalize, SyncState.RecordGroup, CopyAuthority, ValidEntities, ValidBody, Record;
      assert AllValidBodies(m.changes) by { MutationBodies(m); }
      var canonical := CanonicalizeGroup(m.changes);
      if canonical.Err? {
        return Err(canonical.error);
      }
      RecordedIsWellKeyed(m.changes);
      var revision := RecordGroup(m.id, canonical.value, true, now);
      if revision.Err? {
        return Err(revision.error);
      }
      receipts := receipts[m.id := Receipt(m, revision.value)];
      return Ok(Ack(m.id, revision.value, Applied));
    }

    lemma RecordedIsWellKeyed(cs: seq<Change>)
      requires CopyAuthority(entities) && AllValidBodies(cs) && Canonicalize(entities, cs).Ok?
      ensures WellKeyed(Record(entities, Canonicalize(entities, cs).value, |log| + 1))
    {
      hide Canonicalize, AllValidBodies, WellKeyed, Record, EntriesFollowCopies, CopiesHaveEntries, IssuesDescribed,
           OperationsAgree;
      GroupKeepsCopyAuthority(entities, cs, |log| + 1);
    }

    method DeliverMutations(ms: seq<Mutation>, known: map<MutationId, nat>, now: nat)
      returns (r: Result<seq<Ack>, SyncError>)
      requires GoodCore(env, Tables()) && Deliverable(Tables(), ms) && IsKnown(Tables(), ms, known)
      modifies this`log, this`entities, this`receipts, this`comics
      ensures match DeliverAll(env, old(Tables()), ms, now)
              case Ok(d) => r == Ok(d.acks) && Tables() == d.core
              case Err(e) => r == Err(e)
    {
      hide Deliver, ValidMutation, GoodHistory, GoodTables, Deliverable, IsKnown, Grew, Answered;
      ghost var start := Tables();
      var acks: seq<Ack> := [];
      assert ms[..0] == [];
      for i := 0 to |ms|
        invariant DeliverAll(env, start, ms[..i], now) == Ok(Delivery(Tables(), acks))
      {
        assert ms[..i + 1][..i] == ms[..i];
        var m := ms[i];
        DeliveryContinues(env, start, ms, i, Tables(), known, now);
        if m.id in known {
          acks := acks + [Ack(m.id, known[m.id], Duplicate)];
        } else {
          var one := DeliverNew(m, now);
          if one.Err? {
            DeliveryFailsEarly(env, start, ms, i + 1, now);
            return Err(one.error);
          }
          acks := acks + [one.value];
        }
      }
      assert ms[..|ms|] == ms;
      return Ok(acks);
    }

    // The page loop.
    method BuildPage(req: Request, acks: seq<Ack>, now: nat) returns (r: Result<Response, SyncError>)
      requires req.cursor <= |log| && req.limit >= 0
      ensures r == BuildResponse(env, serverId, log, req, acks, now)
    {
      hide ResponseBytes;
      var highWater := |log|;
      var rows := PageOf(log, req.cursor, Min(req.limit + 1, highWater - req.cursor));
      var base := Response(req.requestId, now, req.cursor, false, acks, []);
      var page: seq<PageGroup> := [];
      while |page| < |rows| && |page| < req.limit
        invariant |page| <= |rows| && |page| <= req.limit
        invariant page == PageOf(log, req.cursor, |page|)
        invariant PageCount(env, serverId, base, log, req.limit,
                            0) == PageCount(env, serverId, base, log, req.limit, |page|)
      {
        var candidate := page + [rows[|page|]];
        var probe := base.(nextCursor := rows[|page|].revision, hasMore := true, groups := candidate);
        assert probe == Probe(base, log, |page| + 1);
        if ResponseBytes(env, serverId, probe) > MAX_V2_RESPONSE_BYTES {
          break;
        }
        page := candidate;
      }
      assert PageCount(env, serverId, base, log, req.limit, 0) == |page|;
      if rows != [] && page == [] {
        return Err(ChangeGroupTooLarge);
      }
      var hasMore := |page| < |rows| || |rows| > req.limit;
      var nextCursor := if hasMore then page[|page| - 1].revision else highWater;
      return Ok(base.(nextCursor := nextCursor, hasMore := hasMore, groups := page));
    }

    // _prune_request_cache
    method PruneRequestCache(now: int)
      requires InEvictionOrder(requests)
      modifies this`requests
      ensures requests == Prune(env, serverId, old(requests), now)
    {
      hide RowBytes;
      requests := DropExpired(requests, now);
      requests := DropExcess(requests);
      ghost var start := requests;
      var total := CacheBytes(env, serverId, requests);
      while total > MAX_V2_REQUEST_CACHE_BYTES
        invariant total == CacheBytes(env, serverId, requests)
        invariant DropHeavy(env, serverId, requests) == DropHeavy(env, serverId, start)
        decreases |requests|
      {
        var stale := if |requests| <= 100 then requests else requests[..100];
        var removed, removedBytes := DropBatch(stale, total);
        requests := requests[removed..];
        total := total - removedBytes;
      }
    }

    // The rows of one batch to remove: up to the first after which the rest is small enough.
    method DropBatch(stale: Cache, total: nat) returns (removed: nat, removedBytes: nat)
      requires stale <= requests && stale != [] && total == CacheBytes(env, serverId, requests) > MAX_V2_REQUEST_CACHE_BYTES
      ensures 0 < removed <= |stale| && total - removedBytes == CacheBytes(env, serverId, requests[removed..])
      ensures DropHeavy(env, serverId, requests[removed..]) == DropHeavy(env, serverId, requests)
    {
      hide RowBytes;
      removed, removedBytes := 0, 0;
      assert requests[0..] == requests;
      while removed < |stale|
        invariant removed <= |stale| && total - removedBytes == CacheBytes(env, serverId, requests[removed..])
        invariant removed < |stale| ==> total - removedBytes > MAX_V2_REQUEST_CACHE_BYTES
        invariant DropHeavy(env, serverId, requests[removed..]) == DropHeavy(env, serverId, requests)
        decreases |stale| - removed
      {
        assert requests[removed..][1..] == requests[removed + 1..];
        assert requests[removed..][0] == stale[removed];
        removedBytes := removedBytes + RowBytes(env, serverId, stale[removed]);
        removed := removed + 1;
        if total - removedBytes <= MAX_V2_REQUEST_CACHE_BYTES {
          break;
        }
      }
    }

    // The part of sync_v2 that may fail after it has changed tables.
    method ExecuteRequest(req: Request, now: nat) returns (r: Result<Response, SyncError>)
      requires Valid() && ValidRequest(req) && req.cursor <= |log|
      modifies this`log, this`entities, this`receipts, this`comics, this`activated
      ensures match Execute(env, serverId, old(Tables()), req, now)
              case Ok((core, response)) => r == Ok(response) && Tables() == core
              case Err(e) => r == Err(e)
    {
      hide GoodCache, GoodHistory, GoodTables, ValidComics, ValidEnv, IdReused, DeliverAll, BuildResponse, IsKnown;
      var known := CheckMutations(req.mutations);
      if known.None? {
        return Err(MutationIdReused);
      }
      assert Deliverable(Tables(), req.mutations) by { RequestIsDeliverable(Tables(), req); }
      var acks := DeliverMutations(req.mutations, known.value, now);
      if acks.Err? {
        return Err(acks.error);
      }
      if req.mutations != [] {
        activated := true;
      }
      r := BuildPage(req, acks.value, now);
    }

    // Store.sync_v2
    method SyncV2(req: Request, cacheResponse: bool, now: nat, later: nat) returns (r: Result<Response, SyncError>)
      requires Valid()
      modifies this
      ensures Valid()
      ensures (Contents(), r) == SyncState.SyncV2(env, serverId, old(Contents()), req, cacheResponse, now, later)
    {
      hide GoodCore, GoodCache, ValidEnv, ValidRequest, Execute, Prune, Insert;
      SyncV2Stays(req, cacheResponse, now, later);
      var saved := Contents();
      if !ValidRequest(req) {
        return Err(InvalidRequest);
      }
      if req.serverId != "" && req.serverId != serverId {
        return Err(ServerMismatch);
      }
      var cached := FindRow(requests, req.requestId);
      if cached.Some? {
        return if cached.value.payload == req then Ok(cached.value.response) else Err(RequestIdReused);
      }
      if req.cursor > |log| {
        return Err(CursorInvalid);
      }
      r := ExecuteRequest(req, now);
      if r.Err? {
        Rollback(saved);
        return;
      }
      if cacheResponse {
        var row := CacheRow(req.requestId, req, r.value, now);
        InsertStaysOrdered(saved, row);
        requests := Insert(requests, row);
        PruneRequestCache(later);
      }
    }

    lemma InsertStaysOrdered(saved: State, row: CacheRow)
      requires GoodState(env, saved)
      ensures InEvictionOrder(Insert(saved.cache, row))
    {
      hide GoodCore;
      InsertKeepsOrder(saved.cache, row);
    }

    lemma SyncV2Stays(req: Request, cacheResponse: bool, now: nat, later: nat)
      requires Valid()
      ensures GoodState(env, SyncState.SyncV2(env, serverId, Contents(), req, cacheResponse, now, later).0)
    {
      hide SyncState.SyncV2, GoodState, ValidEnv;
      SyncV2Keeps(env, serverId, Contents(), req, cacheResponse, now, later);
    }
  }
}
