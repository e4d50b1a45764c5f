/** Every run of the sync server: the invariant of all its tables, truthful responses even from
    the cache, and clients that converge by polling. */
module SyncRuns {
  import opened Basics
  import opened Utf8
  import opened SyncTypes
  import opened Canonical
  import opened Authority
  import opened Projection
  import opened V1Bridge
  import opened Paging
  import opened RequestCache
  import opened SyncState
  import opened SyncInvariant

  // ---------- Truthful responses ----------

  ghost predicate TruthfulPage(log: seq<Group>, cursor: nat, r: Response) {
    && cursor <= r.nextCursor <= |log|
    && r.groups == PageOf(log, cursor, r.nextCursor - cursor)
    && (r.hasMore ==> r.nextCursor > cursor)
  }

  ghost predicate TruthfulAcks(log: seq<Group>, acks: seq<Ack>) {
    forall i :: 0 <= i < |acks| ==>
      && 1 <= acks[i].revision <= |log|
      && log[acks[i].revision - 1].mutationId == acks[i].mutationId
  }

  // The groups of a response are the log from the request's cursor to the response's, an empty
  // page never claims that more follows, and every acknowledgement names the group recorded at
  // its revision, which lies beyond the page only while more follows.
  ghost predicate Truthful(log: seq<Group>, cursor: nat, r: Response) {
    && TruthfulPage(log, cursor, r) && TruthfulAcks(log, r.acks)
    && forall i :: 0 <= i < |r.acks| ==> r.hasMore || r.acks[i].revision <= r.nextCursor
  }

  lemma TruthfulLater(log: seq<Group>, later: seq<Group>, cursor: nat, r: Response)
    requires log <= later && Truthful(log, cursor, r)
    ensures Truthful(later, cursor, r)
  {
    assert PageOf(later, cursor, r.nextCursor - cursor) == PageOf(log, cursor, r.nextCursor - cursor);
  }

  // A request id stands in the cache once, with the request it came with.
  ghost predicate DistinctRequests(cache: Cache) {
    && (forall i, j :: 0 <= i < j < |cache| ==> cache[i].requestId != cache[j].requestId)
    && forall i :: 0 <= i < |cache| ==> cache[i].payload.requestId == cache[i].requestId
  }

  ghost predicate GoodCache(log: seq<Group>, cache: Cache) {
    && InEvictionOrder(cache) && DistinctRequests(cache)
    && forall i :: 0 <= i < |cache| ==> Truthful(log, cache[i].payload.cursor, cache[i].response)
  }

  ghost predicate GoodState(env: Env, st: State) {
    GoodCore(env, st.core) && GoodCache(st.core.log, st.cache)
  }

  lemma StateIsGood(env: Env, st: State)
    requires GoodState(env, st)
    ensures GoodCore(env, st.core)
  {
    hide GoodCore, GoodCache;
  }

  lemma AnsweredIsTruthful(core: Core, ms: seq<Mutation>, acks: seq<Ack>)
    requires GoodReceipts(core) && Answered(core, ms, acks)
    ensures TruthfulAcks(core.log, acks)
  {
    forall i | 0 <= i < |acks|
      ensures 1 <= acks[i].revision <= |core.log| && core.log[acks[i].revision - 1].mutationId == acks[i].mutationId
    {
      assert core.receipts[ms[i].id] == Receipt(ms[i], acks[i].revision);
    }
  }

  lemma BuiltPage(env: Env, serverId: string, log: seq<Group>, req: Request, acks: seq<Ack>, now: nat)
    requires req.cursor <= |log| && req.limit >= 0
    ensures var r := BuildResponse(env, serverId, log, req, acks, now);
            r.Ok? ==> TruthfulPage(log, req.cursor, r.value) && r.value.acks == acks
                      && (r.value.hasMore <==> r.value.nextCursor < |log|)
  {
  }

  lemma BuiltIsTruthful(env: Env, serverId: string, core: Core, req: Request, acks: seq<Ack>, now: nat)
    requires GoodReceipts(core) && Answered(core, req.mutations, acks)
    requires req.cursor <= |core.log| && req.limit >= 0
    ensures var r := BuildResponse(env, serverId, core.log, req, acks, now);
            r.Ok? ==> Truthful(core.log, req.cursor, r.value)
                      && (r.value.hasMore <==> r.value.nextCursor < |core.log|)
                      && r.value.acks == acks
  {
    BuiltPage(env, serverId, core.log, req, acks, now);
    AnsweredIsTruthful(core, req.mutations, acks);
  }

  // ---------- One v2 call ----------

  lemma ActivateKeeps(env: Env, core: Core, activated: bool)
    requires GoodCore(env, core)
    ensures GoodCore(env, core.(activated := activated))
  {
  }

  // What executing a request does to the tables, and what its response says.
  lemma ExecuteKeeps(env: Env, serverId: string, core: Core, req: Request, now: nat)
    requires GoodCore(env, core) && ValidRequest(req) && req.cursor <= |core.log|
    ensures var r := Execute(env, serverId, core, req, now);
            r.Ok? ==>
              && GoodCore(env, r.value.0)
              && Deliverable(core, req.mutations)
              && Grew(core, r.value.0.(activated := core.activated), req.mutations)
              && r.value.0.activated == (core.activated || req.mutations != [])
              && Answered(r.value.0, req.mutations, r.value.1.acks)
              && Truthful(r.value.0.log, req.cursor, r.value.1)
              && (r.value.1.hasMore <==> r.value.1.nextCursor < |r.value.0.log|)
  {
    var r := Execute(env, serverId, core, req, now);
    if r.Ok? {
      assert Deliverable(core, req.mutations);
      DeliverAllKeeps(env, core, req.mutations, now);
      var d := DeliverAll(env, core, req.mutations, now).value;
      var next := d.core.(activated := d.core.activated || req.mutations != []);
      ActivateKeeps(env, d.core, next.activated);
      assert GoodHistory(env, next);
      BuiltIsTruthful(env, serverId, next, req, d.acks, now);
    }
  }

  lemma {:induction false} FoundRow(cache: Cache, id: string) returns (i: nat)
    requires FindRow(cache, id).Some?
    ensures i < |cache| && cache[i] == FindRow(cache, id).value && cache[i].requestId == id
  {
    if cache[0].requestId == id {
      i := 0;
    } else {
      var j := FoundRow(cache[1..], id);
      i := j + 1;
    }
  }

  lemma NothingCached(id: string)
    ensures FindRow([], id).None?
  {
  }

  lemma CacheLater(log: seq<Group>, later: seq<Group>, cache: Cache)
    requires log <= later && GoodCache(log, cache)
    ensures GoodCache(later, cache)
  {
    forall i | 0 <= i < |cache| ensures Truthful(later, cache[i].payload.cursor, cache[i].response) {
      TruthfulLater(log, later, cache[i].payload.cursor, cache[i].response);
    }
  }

  ghost predicate NotYetCached(cache: Cache, id: string) {
    forall i :: 0 <= i < |cache| ==> cache[i].requestId != id
  }

  lemma {:induction false} NotFoundIsAbsent(cache: Cache, id: string)
    requires FindRow(cache, id).None?
    ensures NotYetCached(cache, id)
  {
    if cache != [] {
      NotFoundIsAbsent(cache[1..], id);
      assert forall i :: 0 < i < |cache| ==> cache[i] == cache[1..][i - 1];
    }
  }

  // What may be inserted: a truthful answer to a request whose id is not in the cache.
  ghost predicate Insertable(log: seq<Group>, cache: Cache, row: CacheRow) {
    && Truthful(log, row.payload.cursor, row.response)
    && row.payload.requestId == row.requestId && NotYetCached(cache, row.requestId)
  }

  lemma InsertTruthful(log: seq<Group>, cache: Cache, row: CacheRow)
    requires GoodCache(log, cache) && Insertable(log, cache, row)
    ensures GoodCache(log, Insert(cache, row))
  {
    hide Truthful, InEvictionOrder, Insert, DistinctRequests;
    var at := InsertPlaces(cache, row);
    InsertKeepsOrder(cache, row);
    var all := cache[..at] + [row] + cache[at..];
    InsertKeepsDistinct(cache, row, at);
    assert forall i :: 0 <= i < |all| ==> all[i] == if i < at then cache[i] else if i == at then row else cache[i - 1];
  }

  lemma InsertKeepsDistinct(cache: Cache, row: CacheRow, at: nat)
    requires at <= |cache| && DistinctRequests(cache) && NotYetCached(cache, row.requestId)
    requires row.payload.requestId == row.requestId
    ensures DistinctRequests(cache[..at] + [row] + cache[at..])
  {
    var all := cache[..at] + [row] + cache[at..];
    assert forall i :: 0 <= i < |all| ==> all[i] == if i < at then cache[i] else if i == at then row else cache[i - 1];
  }

  lemma SuffixTruthful(log: seq<Group>, cache: Cache, k: nat)
    requires GoodCache(log, cache) && k <= |cache|
    ensures GoodCache(log, cache[k..])
  {
    hide Truthful;
    assert forall i :: 0 <= i < |cache[k..]| ==> cache[k..][i] == cache[k + i];
  }

  lemma CacheGrows(env: Env, serverId: string, log: seq<Group>, cache: Cache, row: CacheRow, later: int)
    requires GoodCache(log, cache) && Insertable(log, cache, row)
    ensures GoodCache(log, Prune(env, serverId, Insert(cache, row), later))
  {
    InsertTruthful(log, cache, row);
    var k := PruneIsExact(env, serverId, Insert(cache, row), later);
    SuffixTruthful(log, Insert(cache, row), k);
  }

  // The answer was computed for this call, not taken from the cache.
  ghost predicate Computed(env: Env, serverId: string, st: State, req: Request, now: nat) {
    && ValidRequest(req) && (req.serverId == "" || req.serverId == serverId)
    && FindRow(st.cache, req.requestId).None? && req.cursor <= |st.core.log|
    && Execute(env, serverId, st.core, req, now).Ok?
  }

  lemma RequestHasLimit(req: Request)
    ensures ValidRequest(req) ==> req.limit >= 1
  {
  }

  // A v2 call keeps the invariant and answers truthfully; a computed answer says exactly whether
  // the log holds more. Without a computed answer nothing changes.
  lemma SyncV2Keeps(env: Env, serverId: string, st: State, req: Request, cacheResponse: bool, now: nat, later: nat)
    requires GoodState(env, st)
    ensures var out := SyncV2(env, serverId, st, req, cacheResponse, now, later);
            && GoodState(env, out.0) && st.core.log <= out.0.core.log
            && (out.1.Ok? ==> ValidRequest(req) && Truthful(out.0.core.log, req.cursor, out.1.value))
            && (!Computed(env, serverId, st, req, now) ==> out.0 == st)
            && (Computed(env, serverId, st, req, now) ==>
                  && out.1.Ok? && (out.0.core, out.1.value) == Execute(env, serverId, st.core, req, now).value
                  && Answered(out.0.core, req.mutations, out.1.value.acks)
                  && (out.1.value.hasMore <==> out.1.value.nextCursor < |out.0.core.log|)
                  && out.0.core.activated == (st.core.activated || req.mutations != []))
  {
    hide GoodCore, Execute, Truthful, Answered, Grew, Deliverable, Prune, Insert, InEvictionOrder, DistinctRequests,
         ValidMutation;
    StateIsGood(env, st);
    RequestHasLimit(req);
    if Computed(env, serverId, st, req, now) {
      ExecuteKeeps(env, serverId, st.core, req, now);
      var (core, response) := Execute(env, serverId, st.core, req, now).value;
      CacheLater(st.core.log, core.log, st.cache);
      NotFoundIsAbsent(st.cache, req.requestId);
      CacheGrows(env, serverId, core.log, st.cache, CacheRow(req.requestId, req, response, now), later);
    } else if FindRow(st.cache, req.requestId).Some? {
      var i := FoundRow(st.cache, req.requestId);
      assert Truthful(st.core.log, st.cache[i].payload.cursor, st.cache[i].response);
    }
  }

  // ---------- Every run ----------

  lemma StepKeeps(env: Env, serverId: string, st: State, call: Call)
    requires GoodState(env, st) && ValidEnv(env)
    ensures GoodState(env, Step(env, serverId, st, call))
    ensures st.core.log <= Step(env, serverId, st, call).core.log
  {
    match call
    case V1(changes) =>
      SyncV1Keeps(env, st.core, changes);
      var r := SyncV1(env, st.core, changes);
      if r.Ok? {
        CacheLater(st.core.log, r.value.log, st.cache);
      }
    case V2(request, cacheResponse, now, later) =>
      SyncV2Keeps(env, serverId, st, request, cacheResponse, now, later);
  }

  lemma {:induction false} RunKeeps(env: Env, serverId: string, st: State, calls: seq<Call>)
    requires GoodState(env, st) && ValidEnv(env)
    ensures GoodState(env, Run(env, serverId, st, calls))
    ensures st.core.log <= Run(env, serverId, st, calls).core.log
  {
    if calls != [] {
      RunKeeps(env, serverId, st, calls[..|calls| - 1]);
      StepKeeps(env, serverId, Run(env, serverId, st, calls[..|calls| - 1]), calls[|calls| - 1]);
    }
  }

  // In every state a store can reach, copies decide entries, the entity table is the replay of
  // the log, no mutation id occurs twice, and every receipt names the group of its mutation.
  lemma ReachableStatesAreGood(env: Env, serverId: string, comics: Comics, calls: seq<Call>)
    requires ValidEnv(env) && ValidComics(comics) && Opened(env, comics).Ok?
    ensures var st := Run(env, serverId, State(Opened(env, comics).value, []), calls);
            && st.core.entities == Replay(st.core.log)
            && CopyAuthority(st.core.entities)
            && UniqueIds(st.core.log) && GoodReceipts(st.core) && GoodGroups(env, st.core.log)
            && GoodCache(st.core.log, st.cache)
  {
    OpenedIsGood(env, comics);
    var start := State(Opened(env, comics).value, []);
    assert GoodCache(start.core.log, []);
    RunKeeps(env, serverId, start, calls);
    assert GoodState(env, Run(env, serverId, start, calls));
  }

  // ---------- Clients that poll ----------

  datatype Client = Client(cursor: nat, received: seq<PageGroup>)

  // Between the polls of one client, other devices call what they like.
  datatype Event = Other(call: Call)
                 | Poll(request: Request, cacheResponse: bool, now: nat, later: nat)

  datatype System = System(st: State, client: Client)

  // A client sends its own cursor and applies what it gets.
  function Asked(client: Client, request: Request): Request {
    request.(cursor := client.cursor)
  }

  function Taken(client: Client, answer: Result<Response, SyncError>): Client {
    if answer.Err? then client
    else Client(answer.value.nextCursor, client.received + answer.value.groups)
  }

  ghost function Happen(env: Env, serverId: string, s: System, e: Event): System {
    match e
    case Other(call) => s.(st := Step(env, serverId, s.st, call))
    case Poll(request, cacheResponse, now, later) =>
      var out := SyncV2(env, serverId, s.st, Asked(s.client, request), cacheResponse, now, later);
      System(out.0, Taken(s.client, out.1))
  }

  ghost function HappenAll(env: Env, serverId: string, s: System, es: seq<Event>): System {
    if es == [] then s
    else Happen(env, serverId, HappenAll(env, serverId, s, es[..|es| - 1]), es[|es| - 1])
  }

  // What the client's own map looks like.
  function ReplayPages(pages: seq<PageGroup>): Entities {
    if pages == [] then map[]
    else
      var last := pages[|pages| - 1];
      Record(ReplayPages(pages[..|pages| - 1]), last.changes, last.revision)
  }

  // The client holds the log up to its cursor, each group once and in order.
  ghost predicate InStep(env: Env, s: System) {
    && GoodState(env, s.st) && s.client.cursor <= |s.st.core.log|
    && s.client.received == PageOf(s.st.core.log, 0, s.client.cursor)
  }

  lemma PagesConcatenate(log: seq<Group>, a: nat, b: nat)
    requires a <= b <= |log|
    ensures PageOf(log, 0, a) + PageOf(log, a, b - a) == PageOf(log, 0, b)
  {
  }

  lemma PrefixPages(log: seq<Group>, later: seq<Group>, n: nat)
    requires log <= later && n <= |log|
    ensures PageOf(later, 0, n) == PageOf(log, 0, n)
  {
  }

  lemma TakenInStep(env: Env, s: System, st: State, answer: Result<Response, SyncError>)
    requires InStep(env, s) && GoodState(env, st) && s.st.core.log <= st.core.log
    requires answer.Ok? ==> TruthfulPage(st.core.log, s.client.cursor, answer.value)
    ensures InStep(env, System(st, Taken(s.client, answer)))
  {
    PrefixPages(s.st.core.log, st.core.log, s.client.cursor);
    if answer.Ok? {
      PagesConcatenate(st.core.log, s.client.cursor, answer.value.nextCursor);
    }
  }

  lemma PollKeeps(env: Env, serverId: string, s: System, request: Request, cacheResponse: bool,
                  now: nat, later: nat)
    requires InStep(env, s)
    ensures InStep(env, Happen(env, serverId, s, Poll(request, cacheResponse, now, later)))
  {
    var req := Asked(s.client, request);
    SyncV2Keeps(env, serverId, s.st, req, cacheResponse, now, later);
    var out := SyncV2(env, serverId, s.st, req, cacheResponse, now, later);
    TakenInStep(env, s, out.0, out.1);
  }

  lemma HappenKeeps(env: Env, serverId: string, s: System, e: Event)
    requires InStep(env, s) && ValidEnv(env)
    ensures InStep(env, Happen(env, serverId, s, e))
  {
    match e
    case Other(call) =>
      StepKeeps(env, serverId, s.st, call);
      PrefixPages(s.st.core.log, Step(env, serverId, s.st, call).core.log, s.client.cursor);
    case Poll(request, cacheResponse, now, later) =>
      PollKeeps(env, serverId, s, request, cacheResponse, now, later);
  }

  lemma {:induction false} HappenAllKeeps(env: Env, serverId: string, s: System, es: seq<Event>)
    requires InStep(env, s) && ValidEnv(env)
    ensures InStep(env, HappenAll(env, serverId, s, es))
  {
    if es != [] {
      HappenAllKeeps(env, serverId, s, es[..|es| - 1]);
      HappenKeeps(env, serverId, HappenAll(env, serverId, s, es[..|es| - 1]), es[|es| - 1]);
    }
  }

  lemma {:induction false} ReplayOfPages(log: seq<Group>, n: nat)
    requires n <= |log|
    ensures ReplayPages(PageOf(log, 0, n)) == Replay(log[..n])
  {
    if n > 0 {
      ReplayOfPages(log, n - 1);
      assert PageOf(log, 0, n)[..n - 1] == PageOf(log, 0, n - 1);
      assert log[..n][..n - 1] == log[..n - 1];
    }
  }

  lemma {:induction false} RevisionsAreBounded(log: seq<Group>)
    ensures forall k :: k in Replay(log) ==> Replay(log)[k].revision <= |log|
  {
    if log != [] {
      var init, last := log[..|log| - 1], log[|log| - 1];
      RevisionsAreBounded(init);
      RecordedRevisions(Replay(init), last.changes, |log|);
    }
  }

  lemma {:induction false} RecordedRevisions(es: Entities, cs: seq<Change>, revision: nat)
    requires forall k :: k in es ==> es[k].revision <= revision
    ensures forall k :: k in Record(es, cs, revision) ==> Record(es, cs, revision)[k].revision <= revision
    ensures cs != [] ==> KeyOf(cs[|cs| - 1]) in Record(es, cs, revision)
                         && Record(es, cs, revision)[KeyOf(cs[|cs| - 1])].revision == revision
  {
    if cs != [] {
      RecordedRevisions(es, cs[..|cs| - 1], revision);
    }
  }

  // A shorter log replays to a different table: the last group left its revision in it.
  lemma ShorterReplayDiffers(log: seq<Group>, n: nat)
    requires n < |log| && log[|log| - 1].changes != []
    ensures Replay(log[..n]) != Replay(log)
  {
    RevisionsAreBounded(log[..n]);
    RevisionsAreBounded(log[..|log| - 1]);
    RecordedRevisions(Replay(log[..|log| - 1]), log[|log| - 1].changes, |log|);
  }

  // A client in step has the server's table exactly when it is at the head of the log.
  lemma InStepMeans(env: Env, s: System)
    requires InStep(env, s)
    ensures (ReplayPages(s.client.received) == s.st.core.entities) == (s.client.cursor == |s.st.core.log|)
  {
    var log, cursor := s.st.core.log, s.client.cursor;
    assert GoodTables(s.st.core) && GoodHistory(env, s.st.core);
    ReplayOfPages(log, cursor);
    if cursor < |log| {
      ShorterReplayDiffers(log, cursor);
    } else {
      assert log[..cursor] == log;
    }
  }

  // Whatever the other devices do between its polls, and however its polls are answered, a
  // client that starts at cursor zero holds every group up to its cursor exactly once and in
  // order, and its own map is the server's table exactly when its cursor is the head of the log.
  lemma PollingConverges(env: Env, serverId: string, comics: Comics, es: seq<Event>)
    requires ValidEnv(env) && ValidComics(comics) && Opened(env, comics).Ok?
    ensures var start := System(State(Opened(env, comics).value, []), Client(0, []));
            var s := HappenAll(env, serverId, start, es);
            && s.client.cursor <= |s.st.core.log|
            && s.client.received == PageOf(s.st.core.log, 0, s.client.cursor)
            && (ReplayPages(s.client.received) == s.st.core.entities) == (s.client.cursor == |s.st.core.log|)
  {
    hide GoodCore, Opened, Happen, Replay, ReplayPages, ValidComics, ValidEnv;
    OpenedIsGood(env, comics);
    var start := System(State(Opened(env, comics).value, []), Client(0, []));
    assert GoodCache(start.st.core.log, []);
    HappenAllKeeps(env, serverId, start, es);
    InStepMeans(env, HappenAll(env, serverId, start, es));
  }

  // When an answer leaves a client with the server's own table: one computed for the call exactly
  // when it says that nothing follows, and one from the cache exactly when the cursor it was
  // cached with is still the head of the log, whatever it says.
  lemma FinalPageIsCurrent(env: Env, serverId: string, s: System, request: Request,
                           cacheResponse: bool, now: nat, later: nat)
    requires InStep(env, s)
    ensures var cached := FindRow(s.st.cache, request.requestId);
            var out := SyncV2(env, serverId, s.st, Asked(s.client, request), cacheResponse, now, later);
            var after := System(out.0, Taken(s.client, out.1));
            && after == Happen(env, serverId, s, Poll(request, cacheResponse, now, later))
            && InStep(env, after)
            && (out.1.Ok? ==>
                  && (ReplayPages(after.client.received) == after.st.core.entities <==>
                        if cached.Some? then cached.value.response.nextCursor == |s.st.core.log|
                        else !out.1.value.hasMore)
                  && (cached.None? && out.1.value.hasMore ==> after.client.cursor > s.client.cursor))
  {
    hide InStep, GoodState, Execute, Truthful, Answered, Prune, Insert, ReplayPages;
    var req := Asked(s.client, request);
    PollKeeps(env, serverId, s, request, cacheResponse, now, later);
    var out := SyncV2(env, serverId, s.st, req, cacheResponse, now, later);
    if out.1.Ok? {
      InStepIsGood(env, s);
      SyncV2Keeps(env, serverId, s.st, req, cacheResponse, now, later);
      InStepMeans(env, System(out.0, Taken(s.client, out.1)));
      assert FindRow(s.st.cache, request.requestId).None? ==> Computed(env, serverId, s.st, req, now);
      MoreMoves(out.0.core.log, req.cursor, out.1.value);
    }
  }

  lemma InStepIsGood(env: Env, s: System)
    requires InStep(env, s)
    ensures GoodState(env, s.st) && s.client.cursor <= |s.st.core.log|
  {
    hide GoodState;
  }

  lemma MoreMoves(log: seq<Group>, cursor: nat, r: Response)
    requires Truthful(log, cursor, r)
    ensures cursor <= r.nextCursor <= |log| && (r.hasMore ==> r.nextCursor > cursor)
  {
  }

  // ---------- No request fails on its page, and polling reaches the head ----------

  lemma {:induction false} RefreshAllError(es: Entities, comics: Comics, issues: seq<string>, now: int)
    ensures RefreshAll(es, comics, issues, now).Err? ==> RefreshAll(es, comics, issues, now) == Err(InternalError)
  {
    hide ViewOf, Projects, ValidateComic, NextUpdate, Row;
    if issues != [] {
      RefreshAllError(es, comics, issues[..|issues| - 1], now);
    }
  }

  lemma DeliverError(env: Env, core: Core, m: Mutation, now: nat)
    ensures var r := Deliver(env, core, m, now);
            && (r.Err? ==> r.error in {InvalidRequest, MutationTooLarge, InternalError})
            && (r.Ok? ==> |r.value.0.log| <= |core.log| + 1)
  {
    hide Acceptable, Normalized, Record, RefreshAll, ChangesBytes;
    var canonical := Canonicalize(core.entities, m.changes);
    if canonical.Ok? {
      RefreshAllError(Record(core.entities, canonical.value, |core.log| + 1), core.comics,
                      SortedTexts(Affected(canonical.value)), now);
    }
  }

  lemma {:induction false} DeliverAllError(env: Env, core: Core, ms: seq<Mutation>, now: nat)
    ensures var r := DeliverAll(env, core, ms, now);
            && (r.Err? ==> r.error in {InvalidRequest, MutationTooLarge, InternalError})
            && (r.Ok? ==> |r.value.core.log| <= |core.log| + |ms|)
  {
    hide Deliver;
    if ms != [] {
      var init, last := ms[..|ms| - 1], ms[|ms| - 1];
      DeliverAllError(env, core, init, now);
      var d := DeliverAll(env, core, init, now);
      if d.Ok? {
        DeliverError(env, d.value.core, last, now);
      }
    }
  }

  // The numbers of a response fit 64 bits.
  ghost predicate NumbersFit(serverId: string, log: seq<Group>, now: nat) {
    |log| + MAX_V2_MUTATIONS <= MAX_INT64 && now <= MAX_INT64 && IsIdentifier(serverId, 128)
  }

  lemma AnsweredIsSmall(env: Env, core: Core, ms: seq<Mutation>, acks: seq<Ack>)
    requires GoodReceipts(core) && Answered(core, ms, acks) && |core.log| <= MAX_INT64 && |ms| <= MAX_V2_MUTATIONS
    requires forall i :: 0 <= i < |ms| ==> ValidMutation(ms[i])
    ensures SmallAcks(acks)
  {
    hide ValidMutationId;
    AnsweredIsTruthful(core, ms, acks);
    forall i | 0 <= i < |acks| ensures ValidMutationId(acks[i].mutationId) && acks[i].revision <= MAX_INT64 {
      assert ValidMutation(ms[i]);
    }
  }

  // Once the mutations are delivered, the page is built.
  lemma ExecuteBuilds(env: Env, serverId: string, core: Core, req: Request, now: nat)
    requires GoodCore(env, core) && Deliverable(core, req.mutations) && |req.mutations| <= MAX_V2_MUTATIONS
    requires IsIdentifier(req.requestId, 128) && req.limit >= 1 && req.cursor <= |core.log|
    requires NumbersFit(serverId, core.log, now)
    ensures Execute(env, serverId, core, req, now).Ok? <==> DeliverAll(env, core, req.mutations, now).Ok?
    ensures var r, d := Execute(env, serverId, core, req, now), DeliverAll(env, core, req.mutations, now);
            r.Err? && d.Err? ==> r.error == d.error
  {
    hide GoodTables, ValidMutation, IsIdentifier, IdReused, Deliver, BuildResponse, SmallAcks, SmallGroup, Grew;
    var d := DeliverAll(env, core, req.mutations, now);
    if d.Ok? {
      DeliverAllKeeps(env, core, req.mutations, now);
      DeliverAllError(env, core, req.mutations, now);
      AnsweredIsSmall(env, d.value.core, req.mutations, d.value.acks);
      PagesProgress(env, serverId, d.value.core.log, req, d.value.acks, now);
    }
  }

  // The error for an oversized group cannot reach a client: no request of any run is answered so.
  lemma OversizedGroupIsUnreachable(env: Env, serverId: string, comics: Comics, calls: seq<Call>, req: Request,
                                    cacheResponse: bool, now: nat, later: nat)
    requires ValidEnv(env) && ValidComics(comics) && Opened(env, comics).Ok?
    requires var st := Run(env, serverId, State(Opened(env, comics).value, []), calls);
             NumbersFit(serverId, st.core.log, now)
    ensures var st := Run(env, serverId, State(Opened(env, comics).value, []), calls);
            SyncV2(env, serverId, st, req, cacheResponse, now, later).1 != Err(ChangeGroupTooLarge)
  {
    hide ValidEnv, ValidComics, Opened, Step, GoodCore, Execute, NumbersFit, ValidMutation, IdReused, Prune, Insert;
    OpenedIsGood(env, comics);
    var start := State(Opened(env, comics).value, []);
    RunKeeps(env, serverId, start, calls);
    var st := Run(env, serverId, start, calls);
    if ValidRequest(req) && req.cursor <= |st.core.log| {
      ExecuteError(env, serverId, st.core, req, now);
    }
  }

  lemma ExecuteError(env: Env, serverId: string, core: Core, req: Request, now: nat)
    requires GoodCore(env, core) && ValidRequest(req) && req.cursor <= |core.log|
    requires NumbersFit(serverId, core.log, now)
    ensures Execute(env, serverId, core, req, now) != Err(ChangeGroupTooLarge)
  {
    hide GoodCore, NumbersFit, IdReused, DeliverAll, BuildResponse, IsIdentifier, ValidMutation;
    if forall i :: 0 <= i < |req.mutations| ==> !IdReused(core, req.mutations[i]) {
      assert Deliverable(core, req.mutations);
      DeliverAllError(env, core, req.mutations, now);
      ExecuteBuilds(env, serverId, core, req, now);
    }
  }

  // A poll without mutations under an id that is not in the cache.
  ghost predicate IsFreshPoll(serverId: string, s: System, e: Event) {
    && e.Poll? && ValidRequest(e.request) && e.request.mutations == []
    && (e.request.serverId == "" || e.request.serverId == serverId)
    && FindRow(s.st.cache, e.request.requestId).None? && NumbersFit(serverId, s.st.core.log, e.now)
  }

  // Such a poll is always computed, and moves the client on unless it is at the head.
  lemma FreshPollAdvances(env: Env, serverId: string, s: System, e: Event)
    requires InStep(env, s) && IsFreshPoll(serverId, s, e)
    ensures Computed(env, serverId, s.st, Asked(s.client, e.request), e.now)
    ensures var after := Happen(env, serverId, s, e);
            after.st.core == s.st.core && after.client.cursor >= Min(|s.st.core.log|, s.client.cursor + 1)
  {
    hide InStep, GoodState, NumbersFit, IsIdentifier, BuildResponse, Prune, Insert, Truthful, Answered;
    var req := Asked(s.client, e.request);
    InStepIsGood(env, s);
    StateIsGood(env, s.st);
    assert Deliverable(s.st.core, req.mutations);
    ExecuteBuilds(env, serverId, s.st.core, req, e.now);
    SyncV2Keeps(env, serverId, s.st, req, e.cacheResponse, e.now, e.later);
    var out := SyncV2(env, serverId, s.st, req, e.cacheResponse, e.now, e.later);
    MoreMoves(out.0.core.log, req.cursor, out.1.value);
  }

  ghost function FreshPolls(env: Env, serverId: string, s: System, es: seq<Event>): nat {
    if es == [] then 0
    else
      FreshPolls(env, serverId, s, es[..|es| - 1])
      + if IsFreshPoll(serverId, HappenAll(env, serverId, s, es[..|es| - 1]), es[|es| - 1]) then 1 else 0
  }

  // However the polls of a client are interleaved with other calls, as many fresh ones as groups
  // were missing at first bring it to where the head of the log was then; it is current if
  // nothing was recorded in between.
  lemma {:induction false} PollingReachesHead(env: Env, serverId: string, s: System, es: seq<Event>)
    requires InStep(env, s) && ValidEnv(env)
    ensures var after := HappenAll(env, serverId, s, es);
            && after.client.cursor >= Min(|s.st.core.log|, s.client.cursor + FreshPolls(env, serverId, s, es))
            && (after.st.core.log == s.st.core.log ==>
                  FreshPolls(env, serverId, s, es) >= |s.st.core.log| - s.client.cursor ==>
                    ReplayPages(after.client.received) == after.st.core.entities)
  {
    hide InStep, Happen, IsFreshPoll, ReplayPages, ValidEnv, GoodState, Computed;
    HappenAllKeeps(env, serverId, s, es);
    InStepMeans(env, HappenAll(env, serverId, s, es));
    InStepIsGood(env, HappenAll(env, serverId, s, es));
    InStepIsGood(env, s);
    if es != [] {
      var init, last := es[..|es| - 1], es[|es| - 1];
      PollingReachesHead(env, serverId, s, init);
      HappenAllKeeps(env, serverId, s, init);
      var mid := HappenAll(env, serverId, s, init);
      LogGrows(env, serverId, s, init);
      HappenMoves(env, serverId, mid, last);
      if IsFreshPoll(serverId, mid, last) {
        FreshPollAdvances(env, serverId, mid, last);
      }
    }
  }

  // No event takes groups from the log or moves a client back.
  lemma HappenMoves(env: Env, serverId: string, s: System, e: Event)
    requires InStep(env, s) && ValidEnv(env)
    ensures var after := Happen(env, serverId, s, e);
            s.st.core.log <= after.st.core.log && s.client.cursor <= after.client.cursor
  {
    hide InStep, GoodState, ValidEnv, SyncV2, Step, Truthful;
    InStepIsGood(env, s);
    match e
    case Other(call) => StepKeeps(env, serverId, s.st, call);
    case Poll(request, cacheResponse, now, later) =>
      var req := Asked(s.client, request);
      SyncV2Keeps(env, serverId, s.st, req, cacheResponse, now, later);
      var out := SyncV2(env, serverId, s.st, req, cacheResponse, now, later);
      if out.1.Ok? {
        MoreMoves(out.0.core.log, req.cursor, out.1.value);
      }
  }

  lemma {:induction false} LogGrows(env: Env, serverId: string, s: System, es: seq<Event>)
    requires InStep(env, s) && ValidEnv(env)
    ensures s.st.core.log <= HappenAll(env, serverId, s, es).st.core.log
  {
    hide InStep, Happen, ValidEnv;
    if es != [] {
      var init, last := es[..|es| - 1], es[|es| - 1];
      LogGrows(env, serverId, s, init);
      HappenAllKeeps(env, serverId, s, init);
      HappenMoves(env, serverId, HappenAll(env, serverId, s, init), last);
    }
  }

  // ---------- A retried request ----------

  // Every answer fits the cache many times over.
  lemma AnswerFitsCache(env: Env, serverId: string, core: Core, req: Request, now: nat)
    requires GoodCore(env, core) && ValidRequest(req) && req.cursor <= |core.log|
    requires Execute(env, serverId, core, req, now).Ok? && NumbersFit(serverId, core.log, now)
    ensures var response := Execute(env, serverId, core, req, now).value.1;
            RowBytes(env, serverId, CacheRow(req.requestId, req, response, now)) <= MAX_V2_REQUEST_CACHE_BYTES
  {
    hide ResponseBytes, Deliver, ValidMutation, GoodTables, ValidComics, IsIdentifier, ChangesBytes, Truthful;
    ExecuteKeeps(env, serverId, core, req, now);
    var d := DeliverAll(env, core, req.mutations, now).value;
    var next := Execute(env, serverId, core, req, now).value.0;
    DeliverAllKeeps(env, core, req.mutations, now);
    DeliverAllError(env, core, req.mutations, now);
    assert SmallAcks(d.acks) by {
      hide GoodCore, Grew;
      AnsweredIsSmall(env, d.core, req.mutations, d.acks);
    }
    PagesProgress(env, serverId, next.log, req, d.acks, now);
    RequestIdIsShort(req);
  }

  lemma RequestIdIsShort(req: Request)
    requires ValidRequest(req)
    ensures Bytes(req.requestId) <= 128 && req.limit >= 1
  {
    hide ValidMutation;
  }

  lemma {:induction false} MemberIsFound(cache: Cache, row: CacheRow)
    requires row in cache && DistinctRequests(cache)
    ensures FindRow(cache, row.requestId) == Some(row)
  {
    if cache[0].requestId != row.requestId {
      assert forall i :: 0 <= i < |cache[1..]| ==> cache[1..][i] == cache[i + 1];
      MemberIsFound(cache[1..], row);
    }
  }

  // The exact retry of a request that was answered and cached gets the same answer and changes
  // nothing, whatever was called in between and whatever the clock says, as long as its row is
  // in the cache.
  lemma RetriedRequestGetsSameAnswer(env: Env, serverId: string, st: State, req: Request, now: nat, later: nat,
                                     calls: seq<Call>, again: bool, now2: nat, later2: nat)
    requires GoodState(env, st) && ValidEnv(env) && Computed(env, serverId, st, req, now)
    ensures var first := SyncV2(env, serverId, st, req, true, now, later);
            var mid := Run(env, serverId, first.0, calls);
            first.1.Ok? && (CacheRow(req.requestId, req, first.1.value, now) in mid.cache ==>
                              SyncV2(env, serverId, mid, req, again, now2, later2) == (mid, first.1))
  {
    hide Execute, GoodCore, ValidRequest, Prune, Insert, ValidEnv, Step, Truthful, InEvictionOrder, DistinctRequests;
    SyncV2Keeps(env, serverId, st, req, true, now, later);
    var first := SyncV2(env, serverId, st, req, true, now, later);
    RunKeeps(env, serverId, first.0, calls);
    var mid, row := Run(env, serverId, first.0, calls), CacheRow(req.requestId, req, first.1.value, now);
    if row in mid.cache {
      MemberIsFound(mid.cache, row);
    }
  }

  // Its row is there at first if the clock did not go back: it is the youngest, and it fits.
  lemma AnswerIsCached(env: Env, serverId: string, st: State, req: Request, now: nat, later: nat)
    requires GoodState(env, st) && Computed(env, serverId, st, req, now) && NumbersFit(serverId, st.core.log, now)
    requires later <= now + V2_REQUEST_CACHE_TTL_MS && forall i :: 0 <= i < |st.cache| ==> st.cache[i].createdAt <= now
    ensures var first := SyncV2(env, serverId, st, req, true, now, later);
            first.1.Ok? && CacheRow(req.requestId, req, first.1.value, now) in first.0.cache
  {
    hide Execute, GoodCore, ValidRequest, Prune, Insert, RowBytes, IsIdentifier, DistinctRequests, Truthful;
    RequestIdIsShort(req);
    var (core, response) := Execute(env, serverId, st.core, req, now).value;
    AnswerFitsCache(env, serverId, st.core, req, now);
    InsertedRowSurvives(env, serverId, st.cache, CacheRow(req.requestId, req, response, now), later);
  }
}
