/** Exactly when a new mutation of a client is recorded, and what a request with one of them
    leaves behind. */
module Acceptance {
  import opened Basics
  import opened Utf8
  import opened SyncTypes
  import opened Canonical
  import opened Authority
  import opened Projection
  import opened V1Bridge
  import opened Paging
  import opened RequestCache
  import opened SyncState
  import opened SyncInvariant
  import opened SyncRuns
  import opened Lockstep
  import opened Cutover

  // The entity table with the canonical group of a mutation stored.
  function Stored(core: Core, canonical: seq<Change>): Entities {
    Record(core.entities, canonical, |core.log| + 1)
  }

  ghost predicate SomeRowAtLimit(core: Core, canonical: seq<Change>) {
    exists i :: i in Affected(canonical) && AtClockLimit(Stored(core, canonical), core.comics, i)
  }

  lemma StoredIsGood(env: Env, core: Core, m: Mutation)
    requires GoodCore(env, core) && ValidMutation(m) && Canonicalize(core.entities, m.changes).Ok?
    ensures ValidEntities(Stored(core, Canonicalize(core.entities, m.changes).value)) && ValidComics(core.comics)
    ensures forall i :: i in Affected(Canonicalize(core.entities, m.changes).value) ==> i != []
  {
    hide Canonicalize, CopyAuthority, ValidEntities, ValidComics, GoodHistory, ValidBody, Record, Affected;
    assert forall c :: c in m.changes ==> ValidChange(c);
    GroupKeepsValid(core.entities, m.changes, |core.log| + 1);
    forall i | i in Affected(Canonicalize(core.entities, m.changes).value) ensures i != [] {
      AffectedIssues(core.entities, m.changes, i);
    }
  }

  // A new mutation is recorded exactly when it is acceptable, its group is within the size limit
  // and no row of its issues carries the largest timestamp; each refusal has its own error.
  lemma NewMutationIsRecordedIff(env: Env, core: Core, m: Mutation, now: nat)
    requires GoodCore(env, core) && ValidMutation(m) && m.id !in core.receipts && now < MAX_INT64
    ensures var r, canonical := Deliver(env, core, m, now), Canonicalize(core.entities, m.changes);
            if canonical.Err? then r == Err(InvalidRequest)
            else if ChangesBytes(env, canonical.value) > MAX_V2_GROUP_BYTES then r == Err(MutationTooLarge)
            else if SomeRowAtLimit(core, canonical.value) then r == Err(InternalError)
            else r.Ok? && r.value.1 == Ack(m.id, |core.log| + 1, Applied)
                 && r.value.0.log == core.log + [Group(m.id, canonical.value)]
                 && r.value.0.entities == Stored(core, canonical.value)
                 && r.value.0.receipts == core.receipts[m.id := Receipt(m, |core.log| + 1)]
                 && r.value.0.activated == core.activated
                 && RefreshAll(r.value.0.entities, core.comics, SortedTexts(Affected(canonical.value)), now)
                    == Ok(r.value.0.comics)
  {
    hide GoodCore, ValidMutation, Acceptable, Normalized, Record, ChangesBytes, AtClockLimit, Affected, RefreshAll,
         ValidEntities, ValidComics;
    var canonical := Canonicalize(core.entities, m.changes);
    if canonical.Ok? {
      var issues := SortedTexts(Affected(canonical.value));
      StoredIsGood(env, core, m);
      SortedIsDistinct(Affected(canonical.value));
      RefreshAllFails(Stored(core, canonical.value), core.comics, issues, now);
      RefreshAllError(Stored(core, canonical.value), core.comics, issues, now);
    }
  }

  // A request that delivers one new mutation and answers for it.
  ghost predicate IsOneNewMutation(env: Env, serverId: string, st: State, req: Request, m: Mutation, now: nat) {
    && ValidRequest(req) && req.mutations == [m] && (req.serverId == "" || req.serverId == serverId)
    && FindRow(st.cache, req.requestId).None? && req.cursor <= |st.core.log|
    && !InLog(st.core.log, m.id) && NumbersFit(serverId, st.core.log, now) && now < MAX_INT64
  }

  lemma NewHasNoReceipt(env: Env, core: Core, m: Mutation)
    requires GoodCore(env, core) && !InLog(core.log, m.id)
    ensures m.id !in core.receipts && !IdReused(core, m)
  {
    hide GoodTables, ValidComics;
    assert GoodReceipts(core);
  }

  lemma DeliverOne(env: Env, core: Core, m: Mutation, now: nat)
    ensures var one, all := Deliver(env, core, m, now), DeliverAll(env, core, [m], now);
            if one.Err? then all == Err(one.error) else all == Ok(Delivery(one.value.0, [one.value.1]))
  {
    hide Deliver;
    var ms, one := [m], Deliver(env, core, m, now);
    assert ms[..|ms| - 1] == [];
    assert DeliverAll(env, core, ms[..|ms| - 1], now) == Ok(Delivery(core, []));
    assert one.Ok? ==> [] + [one.value.1] == [one.value.1];
  }

  // Such a request is answered exactly when its mutation is recorded.
  lemma OneMutationAnswered(env: Env, serverId: string, st: State, req: Request, m: Mutation, cacheResponse: bool,
                            now: nat, later: nat)
    requires GoodState(env, st) && IsOneNewMutation(env, serverId, st, req, m, now)
    ensures var one := Deliver(env, st.core, m, now);
            var out := SyncV2(env, serverId, st, req, cacheResponse, now, later);
            if one.Err? then out == (st, Err(one.error))
            else out.1.Ok? && out.0.core == one.value.0.(activated := true)
                 && (!cacheResponse ==> out.0.cache == st.cache)
  {
    hide GoodCore, GoodCache, Deliver, BuildResponse, Prune, Insert, NumbersFit, ValidMutation;
    NewHasNoReceipt(env, st.core, m);
    ValidRequestParts(req, m);
    DeliverOne(env, st.core, m, now);
    ExecuteBuilds(env, serverId, st.core, req, now);
  }

  lemma ValidRequestParts(req: Request, m: Mutation)
    requires ValidRequest(req) && req.mutations == [m]
    ensures IsIdentifier(req.requestId, 128) && req.limit >= 1 && ValidMutation(m)
  {
    hide IsIdentifier, ValidMutation;
    assert req.mutations[0] == m;
  }

  // What the request leaves when nothing stands in the way of its mutation.
  lemma OneMutationIsRecorded(env: Env, serverId: string, st: State, req: Request, m: Mutation, now: nat, later: nat,
                              canonical: seq<Change>)
    requires GoodState(env, st) && IsOneNewMutation(env, serverId, st, req, m, now)
    requires Canonicalize(st.core.entities, m.changes) == Ok(canonical)
    requires ChangesBytes(env, canonical) <= MAX_V2_GROUP_BYTES
    requires forall i :: i in Affected(canonical) ==> i !in st.core.comics
    ensures var out := SyncV2(env, serverId, st, req, false, now, later);
            && out.1.Ok? && GoodState(env, out.0) && out.0.cache == st.cache
            && out.0.core.log == st.core.log + [Group(m.id, canonical)] && m.id in out.0.core.receipts
            && RefreshAll(out.0.core.entities, st.core.comics, SortedTexts(Affected(canonical)), now)
               == Ok(out.0.core.comics)
            && (forall id :: id in out.0.core.comics ==>
                  id in st.core.comics || exists j :: j in Affected(canonical) && LandsOn(j, id))
  {
    hide GoodCore, GoodCache, Deliver, SyncV2, ValidRequest, Canonicalize, ChangesBytes, Affected, Record, LandsOn,
         ViewOf, RefreshAll, HasEntry, NumbersFit;
    assert ValidMutation(m) by { ValidRequestParts(req, m); }
    NewHasNoReceipt(env, st.core, m);
    NewMutationIsRecordedIff(env, st.core, m, now);
    OneMutationAnswered(env, serverId, st, req, m, false, now, later);
    SyncV2Keeps(env, serverId, st, req, false, now, later);
    RecordedRows(env, st.core, m, now, canonical);
  }

  lemma RecordedRows(env: Env, core: Core, m: Mutation, now: nat, canonical: seq<Change>)
    requires GoodCore(env, core) && ValidMutation(m) && !InLog(core.log, m.id) && Deliver(env, core, m, now).Ok?
    requires Canonicalize(core.entities, m.changes) == Ok(canonical)
    ensures forall id :: id in Deliver(env, core, m, now).value.0.comics ==>
              id in core.comics || exists j :: j in Affected(canonical) && LandsOn(j, id)
  {
    hide GoodCore, Deliver, ValidMutation, Canonicalize, Affected, RefreshAll, HasEntry, LandsOn, CopyAuthority,
         ValidEntities, ValidComics, Projectable, Record, AllValidBodies;
    NewHasNoReceipt(env, core, m);
    DeliverIsRecording(env, core, m, now);
    var after, issues := Deliver(env, core, m, now).value.0, SortedTexts(Affected(canonical));
    forall i | i in issues ensures i != [] {
      AffectedIssues(core.entities, m.changes, i);
    }
    RefreshAllRows(after.entities, core.comics, issues, now);
  }

  // ---------- Protocol v1 refuses no valid comic ----------

  lemma ComicIsNormalized(env: Env, c: Comic, d: Change)
    requires d in V1Canonical(env, c)
    ensures d in Normalized(map[], Ordered(V1Changes(env, c)))
  {
    hide Sanitize, Normalized, Ordered;
    EmptyTable(env);
    CanonicalizeComic(map[], Sanitize(env, c));
  }

  lemma ComicIdsAreShort(env: Env, c: Comic, d: Change)
    requires ValidEnv(env) && d in V1Canonical(env, c)
    ensures Bytes(d.id) <= 512
  {
    hide Encode, IsIdentifier, ValidEnv, SanitizedId, SanitizedSeries, SanitizedTitle;
    var id := Sanitize(env, c).id;
    IdentifierIsShort(env, c.id);
    BytesOfConcat(id, ":copy:0");
    BytesOfConcat(id, ":copy:1");
    BytesAtMostFour(":copy:0");
    BytesAtMostFour(":copy:1");
    assert |":copy:0"| == 7 && |":copy:1"| == 7;
  }

  lemma IdentifierIsShort(env: Env, raw: string)
    requires ValidEnv(env)
    ensures Bytes(SanitizedId(env, raw)) <= 128
  {
    hide ValidEnv, SanitizedId, Encode;
    SanitizedIdIsIdentifier(env, raw);
  }

  // The group of a comic is far within the size limit.
  lemma ComicFits(env: Env, c: Comic)
    requires ValidEnv(env) && MeasuresJson(env) && ValidComic(c)
    ensures ChangesBytes(env, V1Canonical(env, c)) <= MAX_V2_GROUP_BYTES
  {
    hide Sanitize, MeasuresJson, ChangesBytes, ValidComic, ValidEnv, Normalized, Encode, ValidData;
    EmptyTable(env);
    EmptyIsAuthorised();
    SanitizedBodiesAreValid(env, c);
    assert |V1Canonical(env, c)| == 4;
    forall d | d in V1Canonical(env, c) ensures ValidData(d.data) && Bytes(d.id) <= 512 {
      ComicIsNormalized(env, c, d);
      CanonicalIsValid(map[], V1Changes(env, c), d);
      ComicIdsAreShort(env, c, d);
    }
    FewChangesFit(env, V1Canonical(env, c));
  }

  lemma EmptyIsAuthorised()
    ensures WellKeyed(map[]) && OperationsAgree(map[]) && ValidEntities(map[])
  {
  }

  // Before activation every list of valid comics is accepted.
  lemma {:induction false} V1WritesSucceed(env: Env, core: Core, cs: seq<Comic>)
    requires ValidEnv(env) && MeasuresJson(env) && V1Phase(env, core) && WellKeyed(core.entities)
    requires forall i :: 0 <= i < |cs| ==> ValidComic(cs[i])
    ensures WriteAllV1(env, core, cs).Ok?
  {
    hide V1Phase, WellKeyed, WriteV1, V1Canonical, ChangesBytes, ValidComic, ValidEnv, MeasuresJson, Record,
         StoredComic;
    if cs != [] {
      var init, last := cs[..|cs| - 1], cs[|cs| - 1];
      V1WritesSucceed(env, core, init);
      WriteAllV1InLockstep(env, core, init);
      WriteV1InLockstep(env, WriteAllV1(env, core, init).value, last);
      ComicFits(env, last);
    }
  }

  lemma {:induction false} BootstrapSucceeds(env: Env, core: Core, ids: seq<string>)
    requires ValidEnv(env) && MeasuresJson(env) && ValidComics(core.comics) && core.log == [] && core.entities == map[]
    requires DistinctTexts(ids) && forall id :: id in ids ==> id in core.comics
    ensures BootstrapRows(env, core, ids).Ok?
  {
    hide ValidEnv, MeasuresJson, Anchored, V1Shaped, WellKeyed, V1Changes, ChangesBytes, ValidateComic;
    if ids != [] {
      var init, last := ids[..|ids| - 1], ids[|ids| - 1];
      assert ids == init + [last] && last in ids && last !in init;
      BootstrapSucceeds(env, core, init);
      BootstrapInLockstep(env, core, init);
      var done := BootstrapRows(env, core, init).value;
      assert core.comics[last].id == last && ValidComic(core.comics[last]);
      BootstrapIsOneGroup(env, done, core.comics[last], init);
      ComicFits(env, core.comics[last]);
    }
  }

  // A store opens on every valid flat table.
  lemma OpeningSucceeds(env: Env, comics: Comics)
    requires ValidEnv(env) && MeasuresJson(env) && ValidComics(comics)
    ensures Opened(env, comics).Ok?
  {
    hide ValidEnv, MeasuresJson, BootstrapRows, ValidComics;
    SortedIsDistinct(comics.Keys);
    BootstrapSucceeds(env, Core([], map[], map[], comics, false), SortedTexts(comics.Keys));
  }

  predicate IsInvalidV1(raws: seq<Comic>) {
    |raws| > 10_000 || exists i :: 0 <= i < |raws| && ValidateComic(raws[i]).None?
  }

  // A validated comic of the call is newer than the row it names.
  ghost predicate ChangesSomeRow(core: Core, raws: seq<Comic>) {
    exists i :: 0 <= i < |raws| && ValidateComic(raws[i]).Some?
      && var c := ValidateComic(raws[i]).value; c.id !in core.comics || core.comics[c.id].updatedAt < c.updatedAt
  }

  // The refusals of a v1 call, each with its own error; any other call is accepted.
  ghost predicate IsV1Outcome(core: Core, raws: seq<Comic>, r: Result<Core, SyncError>) {
    if IsInvalidV1(raws) then r == Err(InvalidRequest)
    else if core.activated && ChangesSomeRow(core, raws) then r == Err(V1ReadOnly)
    else r.Ok?
  }

  lemma {:induction false} CleanAllIs(raws: seq<Comic>)
    ensures CleanAll(raws).Some? <==> forall i :: 0 <= i < |raws| ==> ValidateComic(raws[i]).Some?
    ensures CleanAll(raws).Some? ==>
              |CleanAll(raws).value| == |raws|
              && forall i :: 0 <= i < |raws| ==> ValidateComic(raws[i]) == Some(CleanAll(raws).value[i])
  {
    hide ValidateComic;
    if raws != [] {
      var init := raws[..|raws| - 1];
      CleanAllIs(init);
      assert forall i :: 0 <= i < |init| ==> init[i] == raws[i];
    }
  }

  lemma NewerIffChanges(core: Core, raws: seq<Comic>)
    requires CleanAll(raws).Some?
    ensures (exists i :: 0 <= i < |CleanAll(raws).value| && IsNewer(core.comics, CleanAll(raws).value[i]))
            <==> ChangesSomeRow(core, raws)
  {
    hide ValidateComic;
    CleanAllIs(raws);
    if i :| 0 <= i < |CleanAll(raws).value| && IsNewer(core.comics, CleanAll(raws).value[i]) {
      assert ValidateComic(raws[i]) == Some(CleanAll(raws).value[i]);
    }
  }

  lemma SyncV1RefusesIff(env: Env, core: Core, raws: seq<Comic>)
    requires ValidEnv(env) && MeasuresJson(env) && GoodCore(env, core) && (!core.activated ==> V1Phase(env, core))
    ensures IsV1Outcome(core, raws, SyncV1(env, core, raws))
  {
    hide ValidEnv, MeasuresJson, GoodCore, V1Phase, WriteAllV1, ValidComic, IsNewer, WellKeyed, ChangesSomeRow,
         ValidateComic;
    CleanAllIsValid(raws);
    CleanAllIs(raws);
    if CleanAll(raws).Some? {
      NewerIffChanges(core, raws);
    }
    if |raws| <= MAX_V1_CHANGES && CleanAll(raws).Some? && !core.activated {
      GoodIsWellKeyed(env, core);
      V1WritesSucceed(env, core, CleanAll(raws).value);
    }
  }

  lemma OpenedRunIsGood(env: Env, serverId: string, comics: Comics, calls: seq<Call>)
    requires ValidEnv(env) && ValidComics(comics) && Opened(env, comics).Ok?
    ensures GoodState(env, Run(env, serverId, State(Opened(env, comics).value, []), calls))
  {
    hide ValidEnv, Opened, ValidComics, GoodCore, Step;
    OpenedIsGood(env, comics);
    EmptyCacheIsGood(env, Opened(env, comics).value);
    RunKeeps(env, serverId, State(Opened(env, comics).value, []), calls);
  }

  // In every reachable state a v1 call is refused as invalid exactly when it is too long or holds a
  // comic that does not validate, and as read-only exactly when it is valid and would change a row
  // after activation; a store opens on any valid table.
  lemma V1CallIsRefusedIff(env: Env, serverId: string, comics: Comics, calls: seq<Call>, raws: seq<Comic>)
    requires ValidEnv(env) && MeasuresJson(env) && ValidComics(comics)
    ensures Opened(env, comics).Ok?
    ensures var core := Run(env, serverId, State(Opened(env, comics).value, []), calls).core;
            IsV1Outcome(core, raws, SyncV1(env, core, raws))
  {
    hide ValidEnv, MeasuresJson, Opened, ValidComics, V1Phase, SyncV1, Touched, Overwritten, RowAgrees,
         HasEntry, IsV1Outcome, GoodCore, GoodCache, Step;
    OpeningSucceeds(env, comics);
    RowsFollowEntities(env, serverId, comics, calls);
    OpenedRunIsGood(env, serverId, comics, calls);
    SyncV1RefusesIff(env, Run(env, serverId, State(Opened(env, comics).value, []), calls).core, raws);
  }

  // ---------- The refusals of a v2 call ----------

  // An answer to another request is cached under the id.
  ghost predicate IsRequestReused(cache: Cache, req: Request) {
    exists i :: 0 <= i < |cache| && cache[i].requestId == req.requestId && cache[i].payload != req
  }

  ghost predicate IsCached(cache: Cache, req: Request) {
    exists i :: 0 <= i < |cache| && cache[i].requestId == req.requestId
  }

  // A mutation of the request bears the id of one recorded with another content.
  ghost predicate ReusesMutation(core: Core, req: Request) {
    exists i :: 0 <= i < |req.mutations|
      && (if req.mutations[i].id in core.receipts then core.receipts[req.mutations[i].id].payload != req.mutations[i]
          else exists j :: 0 <= j < |core.log| && core.log[j].mutationId == req.mutations[i].id)
  }

  // In this order a call is refused for its form, for another server, for a reused request id, for
  // a cursor ahead of the log and for a reused mutation id; each has its own error.
  ghost predicate IsV2Outcome(serverId: string, st: State, req: Request, r: Result<Response, SyncError>) {
    if !ValidRequest(req) then r == Err(InvalidRequest)
    else if req.serverId != "" && req.serverId != serverId then r == Err(ServerMismatch)
    else if IsRequestReused(st.cache, req) then r == Err(RequestIdReused)
    else if IsCached(st.cache, req) then r.Ok?
    else if |st.core.log| < req.cursor then r == Err(CursorInvalid)
    else if ReusesMutation(st.core, req) then r == Err(MutationIdReused)
    else r.Ok? || r.error in {InvalidRequest, MutationTooLarge, ChangeGroupTooLarge, InternalError}
  }

  lemma ReusedIff(core: Core, req: Request)
    ensures ReusesMutation(core, req) <==> exists i :: 0 <= i < |req.mutations| && IdReused(core, req.mutations[i])
  {
    if i :| 0 <= i < |req.mutations| && IdReused(core, req.mutations[i]) {
      assert req.mutations[i].id !in core.receipts ==> InLog(core.log, req.mutations[i].id);
    }
  }

  lemma CachedIff(cache: Cache, req: Request)
    requires DistinctRequests(cache)
    ensures IsCached(cache, req) <==> FindRow(cache, req.requestId).Some?
    ensures IsRequestReused(cache, req) <==>
              FindRow(cache, req.requestId).Some? && FindRow(cache, req.requestId).value.payload != req
  {
    hide FindRow;
    forall i | 0 <= i < |cache| && cache[i].requestId == req.requestId
      ensures FindRow(cache, req.requestId) == Some(cache[i])
    {
      MemberIsFound(cache, cache[i]);
    }
    if FindRow(cache, req.requestId).Some? {
      var i := FoundRow(cache, req.requestId);
    }
  }

  // Each refusal in every good state, and so in every reachable one; a refused call changes nothing.
  lemma V2CallIsRefusedIff(env: Env, serverId: string, st: State, req: Request, cacheResponse: bool, now: nat, later: nat)
    requires GoodState(env, st)
    ensures var out := SyncV2(env, serverId, st, req, cacheResponse, now, later);
            IsV2Outcome(serverId, st, req, out.1) && (out.1.Err? ==> out.0 == st)
  {
    hide ValidRequest, GoodCore, DeliverAll, BuildResponse, Prune, Insert, FindRow, IsCached, IsRequestReused, IdReused,
         ReusesMutation, Truthful, InEvictionOrder;
    CachedIff(st.cache, req);
    ReusedIff(st.core, req);
    DeliverAllError(env, st.core, req.mutations, now);
    if ValidRequest(req) && req.cursor <= |st.core.log| && DeliverAll(env, st.core, req.mutations, now).Ok? {
      var d := DeliverAll(env, st.core, req.mutations, now).value;
      ValidHasLimit(req);
      BuildError(env, serverId, d.core.log, req, d.acks, now);
    }
  }

  lemma ValidHasLimit(req: Request)
    requires ValidRequest(req)
    ensures req.limit >= 1
  {
    hide IsIdentifier, ValidMutation;
  }

  lemma BuildError(env: Env, serverId: string, log: seq<Group>, req: Request, acks: seq<Ack>, now: nat)
    requires req.cursor <= |log| && req.limit >= 0
    ensures BuildResponse(env, serverId, log, req, acks, now).Err? ==>
              BuildResponse(env, serverId, log, req, acks, now).error == ChangeGroupTooLarge
  {
    hide PageCount;
  }
}
