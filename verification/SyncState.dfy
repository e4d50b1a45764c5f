/** The sync server as a state machine on values: what each call returns and leaves behind.
    A call that fails leaves everything as it was, since its transaction is rolled back. */
module SyncState {
  import opened Basics
  import opened SyncTypes
  import opened Canonical
  import opened Projection
  import opened V1Bridge
  import opened Paging
  import opened RequestCache

  // The five tables the two protocols share.
  datatype Core = Core(log: seq<Group>, entities: Entities, receipts: map<MutationId, Receipt>,
                       comics: Comics, activated: bool)

  datatype State = State(core: Core, cache: Cache)

  predicate InLog(log: seq<Group>, id: MutationId) {
    exists i :: 0 <= i < |log| && log[i].mutationId == id
  }

  function Affected(cs: seq<Change>): set<string> {
    set c | c in cs && ChangeIssue(c) != "" :: ChangeIssue(c)
  }

  // ---------- Recording groups ----------

  // _record_group
  ghost function RecordGroup(env: Env, core: Core, id: MutationId, canonical: seq<Change>,
                             projectV1: bool, now: nat): (r: Result<Core, SyncError>)
    ensures r.Ok? ==> r.value.log == core.log + [Group(id, canonical)]
  {
    if ChangesBytes(env, canonical) > MAX_V2_GROUP_BYTES then Err(MutationTooLarge)
    else
      var es := Record(core.entities, canonical, |core.log| + 1);
      var next := core.(log := core.log + [Group(id, canonical)], entities := es);
      if !projectV1 then Ok(next)
      else
        match RefreshAll(es, core.comics, SortedTexts(Affected(canonical)), now)
        case Err(e) => Err(e)
        case Ok(comics) => Ok(next.(comics := comics))
  }

  // _record_internal_group; its refusals are not part of the v1 contract.
  ghost function RecordInternal(env: Env, core: Core, id: MutationId, changes: seq<Change>): (r: Result<Core, SyncError>)
    ensures r.Ok? ==> r.value.comics == core.comics && r.value.receipts == core.receipts && r.value.activated == core.activated
  {
    if InLog(core.log, id) then Ok(core)
    else
      match Canonicalize(core.entities, changes)
      case Err(_) => Err(InternalError)
      case Ok(canonical) => RecordGroup(env, core, id, canonical, false, 0)
  }

  // ---------- Protocol v1 ----------

  predicate IsNewer(comics: Comics, c: Comic) {
    c.id !in comics || c.updatedAt > comics[c.id].updatedAt
  }

  // One v1 write: the newest timestamp wins, and an accepted write is bridged into the log.
  ghost function WriteV1(env: Env, core: Core, c: Comic): Result<Core, SyncError> {
    if !IsNewer(core.comics, c) then Ok(core)
    else RecordInternal(env, core.(comics := UpsertComic(core.comics, c)), V1Write(c), V1Changes(env, c))
  }

  ghost function WriteAllV1(env: Env, core: Core, cs: seq<Comic>): Result<Core, SyncError> {
    if cs == [] then Ok(core)
    else
      match WriteAllV1(env, core, cs[..|cs| - 1])
      case Err(e) => Err(e)
      case Ok(done) => WriteV1(env, done, cs[|cs| - 1])
  }

  // The validated comics, or none if one of them is refused.
  function CleanAll(raws: seq<Comic>): Option<seq<Comic>> {
    if raws == [] then Some([])
    else
      var init, last := CleanAll(raws[..|raws| - 1]), ValidateComic(raws[|raws| - 1]);
      if init.None? || last.None? then None else Some(init.value + [last.value])
  }

  const MAX_V1_CHANGES := 10_000

  // Store.sync
  ghost function SyncV1(env: Env, core: Core, raws: seq<Comic>): Result<Core, SyncError> {
    var clean := CleanAll(raws);
    if |raws| > MAX_V1_CHANGES || clean.None? then Err(InvalidRequest)
    else if core.activated then
      if exists i :: 0 <= i < |clean.value| && IsNewer(core.comics, clean.value[i]) then Err(V1ReadOnly)
      else Ok(core)
    else WriteAllV1(env, core, clean.value)
  }

  datatype V1Answer = V1Answer(serverTime: int, rows: seq<Comic>)

  // What a v1 call is answered with: the rows newer than the client has seen, each once and older
  // ones first, and a time at least as late as the clock and every row.
  ghost predicate IsV1Answer(comics: Comics, since: int, now: nat, a: V1Answer) {
    && (forall c :: c in a.rows <==> c.id in comics && comics[c.id] == c && c.updatedAt > since)
    && (forall i, j :: 0 <= i < j < |a.rows| ==> a.rows[i].updatedAt <= a.rows[j].updatedAt && a.rows[i].id != a.rows[j].id)
    && a.serverTime >= now && (forall id :: id in comics ==> comics[id].updatedAt <= a.serverTime)
    && (a.serverTime == now || exists id :: id in comics && comics[id].updatedAt == a.serverTime)
  }

  // _bootstrap_v1 over the rows in id order
  ghost function BootstrapRows(env: Env, core: Core, ids: seq<string>): Result<Core, SyncError>
    requires forall id :: id in ids ==> id in core.comics
    ensures forall r :: BootstrapRows(env, core, ids) == Ok(r) ==> r.comics == core.comics && r.receipts == core.receipts
    ensures forall r :: BootstrapRows(env, core, ids) == Ok(r) ==> r.activated == core.activated
  {
    hide RecordInternal, V1Changes, ValidateComic;
    if ids == [] then Ok(core)
    else
      match BootstrapRows(env, core, ids[..|ids| - 1])
      case Err(e) => Err(e)
      case Ok(done) =>
        match ValidateComic(core.comics[ids[|ids| - 1]])
        case None => Err(InternalError)
        case Some(clean) => RecordInternal(env, done, Bootstrap(clean), V1Changes(env, clean))
  }

  // The store opened on a database that holds only a v1 table.
  ghost function Opened(env: Env, comics: Comics): Result<Core, SyncError> {
    BootstrapRows(env, Core([], map[], map[], comics, false), SortedTexts(comics.Keys))
  }

  // ---------- Protocol v2 ----------

  datatype Delivery = Delivery(core: Core, acks: seq<Ack>)

  // One mutation of a request: a known one is acknowledged again, a new one is recorded.
  ghost function Deliver(env: Env, core: Core, m: Mutation, now: nat): (r: Result<(Core, Ack), SyncError>)
    ensures r.Ok? ==> |core.log| <= |r.value.0.log|
  {
    if m.id in core.receipts then Ok((core, Ack(m.id, core.receipts[m.id].revision, Duplicate)))
    else
      match Canonicalize(core.entities, m.changes)
      case Err(e) => Err(e)
      case Ok(canonical) =>
        match RecordGroup(env, core, m.id, canonical, true, now)
        case Err(e) => Err(e)
        case Ok(next) =>
          var revision := |next.log|;
          Ok((next.(receipts := next.receipts[m.id := Receipt(m, revision)]), Ack(m.id, revision, Applied)))
  }

  ghost function DeliverAll(env: Env, core: Core, ms: seq<Mutation>, now: nat): (r: Result<Delivery, SyncError>)
    ensures r.Ok? ==> |core.log| <= |r.value.core.log|
  {
    if ms == [] then Ok(Delivery(core, []))
    else
      match DeliverAll(env, core, ms[..|ms| - 1], now)
      case Err(e) => Err(e)
      case Ok(d) =>
        match Deliver(env, d.core, ms[|ms| - 1], now)
        case Err(e) => Err(e)
        case Ok(one) => Ok(Delivery(one.0, d.acks + [one.1]))
  }

  // An id is reused when it names different changes, or a group of the server's own.
  predicate IdReused(core: Core, m: Mutation) {
    if m.id in core.receipts then core.receipts[m.id].payload != m else InLog(core.log, m.id)
  }

  function FindRow(cache: Cache, requestId: string): Option<CacheRow> {
    if cache == [] then None
    else if cache[0].requestId == requestId then Some(cache[0])
    else FindRow(cache[1..], requestId)
  }

  // The tables after the mutations of a request, and the response that reports them.
  ghost function Execute(env: Env, serverId: string, core: Core, req: Request, now: nat)
    : Result<(Core, Response), SyncError>
    requires req.cursor <= |core.log| && req.limit >= 0
  {
    if exists i :: 0 <= i < |req.mutations| && IdReused(core, req.mutations[i]) then Err(MutationIdReused)
    else
      match DeliverAll(env, core, req.mutations, now)
      case Err(e) => Err(e)
      case Ok(d) =>
        var next := d.core.(activated := d.core.activated || req.mutations != []);
        match BuildResponse(env, serverId, next.log, req, d.acks, now)
        case Err(e) => Err(e)
        case Ok(response) => Ok((next, response))
  }

  // Store.sync_v2
  ghost function SyncV2(env: Env, serverId: string, st: State, req: Request, cacheResponse: bool,
                        now: nat, later: nat): (State, Result<Response, SyncError>) {
    if !ValidRequest(req) then (st, Err(InvalidRequest))
    else if req.serverId != "" && req.serverId != serverId then (st, Err(ServerMismatch))
    else
      var cached := FindRow(st.cache, req.requestId);
      if cached.Some? then
        (st, if cached.value.payload == req then Ok(cached.value.response) else Err(RequestIdReused))
      else if req.cursor > |st.core.log| then (st, Err(CursorInvalid))
      else
        match Execute(env, serverId, st.core, req, now)
        case Err(e) => (st, Err(e))
        case Ok((core, response)) =>
          var cache := if cacheResponse
                       then Prune(env, serverId, Insert(st.cache, CacheRow(req.requestId, req, response, now)), later)
                       else st.cache;
          (State(core, cache), Ok(response))
  }

  // ---------- Runs ----------

  datatype Call = V1(changes: seq<Comic>)
                | V2(request: Request, cacheResponse: bool, now: nat, later: nat)

  ghost function Step(env: Env, serverId: string, st: State, call: Call): State {
    match call
    case V1(changes) =>
      (match SyncV1(env, st.core, changes)
       case Err(_) => st
       case Ok(core) => st.(core := core))
    case V2(request, cacheResponse, now, later) =>
      SyncV2(env, serverId, st, request, cacheResponse, now, later).0
  }

  ghost function Run(env: Env, serverId: string, st: State, calls: seq<Call>): State {
    if calls == [] then st
    else Step(env, serverId, Run(env, serverId, st, calls[..|calls| - 1]), calls[|calls| - 1])
  }
}
