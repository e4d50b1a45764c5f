/** Retries change nothing: the tables a run leaves are those of the first deliveries alone. */
module ExactlyOnce {
  import opened Basics
  import opened SyncTypes
  import opened Canonical
  import opened V1Bridge
  import opened Paging
  import opened RequestCache
  import opened SyncState
  import opened SyncInvariant
  import opened SyncRuns

  // The mutations the tables have not seen.
  function Fresh(core: Core, ms: seq<Mutation>): seq<Mutation> {
    if ms == [] then []
    else
      var last := ms[|ms| - 1];
      Fresh(core, ms[..|ms| - 1]) + if last.id in core.receipts then [] else [last]
  }

  lemma {:induction false} FreshMembers(core: Core, ms: seq<Mutation>)
    ensures forall m :: m in Fresh(core, ms) <==> m in ms && m.id !in core.receipts
  {
    if ms != [] {
      var init, last := ms[..|ms| - 1], ms[|ms| - 1];
      FreshMembers(core, init);
      assert ms == init + [last];
    }
  }

  lemma {:induction false} FreshIsDistinct(core: Core, ms: seq<Mutation>)
    requires DistinctMutations(ms)
    ensures DistinctMutations(Fresh(core, ms))
  {
    if ms != [] {
      var init, last := ms[..|ms| - 1], ms[|ms| - 1];
      FreshIsDistinct(core, init);
      FreshMembers(core, init);
      forall m | m in Fresh(core, init) ensures m.id != last.id {
        var j :| 0 <= j < |init| && init[j] == m;
        assert ms[j].id != ms[|ms| - 1].id;
      }
    }
  }

  lemma DeliverOneMore(env: Env, core: Core, ms: seq<Mutation>, m: Mutation, now: nat, done: Core)
    requires DeliverAll(env, core, ms, now).Ok? && DeliverAll(env, core, ms, now).value.core == done
    ensures DeliverAll(env, core, ms + [m], now).Ok? <==> Deliver(env, done, m, now).Ok?
    ensures Deliver(env, done, m, now).Ok? ==>
              DeliverAll(env, core, ms + [m], now).value.core == Deliver(env, done, m, now).value.0
  {
    assert (ms + [m])[..|ms|] == ms;
  }

  lemma DeliverKnown(env: Env, core: Core, m: Mutation, now: nat)
    requires m.id in core.receipts
    ensures Deliver(env, core, m, now).Ok? && Deliver(env, core, m, now).value.0 == core
  {
  }

  lemma FreshStep(core: Core, ms: seq<Mutation>)
    requires ms != []
    ensures var init, last := ms[..|ms| - 1], ms[|ms| - 1];
            Fresh(core, ms) == (if last.id in core.receipts then Fresh(core, init) else Fresh(core, init) + [last])
  {
  }

  lemma {:induction false} ReceiptsStay(env: Env, core: Core, ms: seq<Mutation>, now: nat)
    requires DeliverAll(env, core, ms, now).Ok?
    ensures forall id :: id in core.receipts ==> id in DeliverAll(env, core, ms, now).value.core.receipts
  {
    if ms != [] {
      ReceiptsStay(env, core, ms[..|ms| - 1], now);
    }
  }

  // Leaving out the mutations that were delivered before leads to the same tables.
  lemma {:induction false} DuplicatesChangeNothing(env: Env, core: Core, ms: seq<Mutation>, now: nat)
    requires DeliverAll(env, core, ms, now).Ok?
    ensures DeliverAll(env, core, Fresh(core, ms), now).Ok?
    ensures DeliverAll(env, core, Fresh(core, ms), now).value.core == DeliverAll(env, core, ms, now).value.core
  {
    hide Deliver;
    if ms != [] {
      var init, last := ms[..|ms| - 1], ms[|ms| - 1];
      DuplicatesChangeNothing(env, core, init, now);
      var done := DeliverAll(env, core, init, now).value.core;
      assert ms == init + [last];
      DeliverOneMore(env, core, init, last, now, done);
      FreshStep(core, ms);
      if last.id in core.receipts {
        ReceiptsStay(env, core, init, now);
        DeliverKnown(env, done, last, now);
      } else {
        DeliverOneMore(env, core, Fresh(core, init), last, now, done);
      }
    }
  }

  // ---------- A run and its first deliveries ----------

  function Thinner(core: Core, req: Request): Request {
    req.(mutations := Fresh(core, req.mutations))
  }

  // What is left of a call: nothing of one that changed nothing, the fresh mutations of a request.
  ghost function Thin(env: Env, serverId: string, st: State, call: Call): seq<Call> {
    match call
    case V1(changes) => if SyncV1(env, st.core, changes).Ok? then [call] else []
    case V2(request, _, now, later) =>
      if Computed(env, serverId, st, request, now) then [V2(Thinner(st.core, request), false, now, later)] else []
  }

  ghost function ThinAll(env: Env, serverId: string, st: State, calls: seq<Call>): seq<Call> {
    if calls == [] then []
    else
      ThinAll(env, serverId, st, calls[..|calls| - 1])
      + Thin(env, serverId, Run(env, serverId, st, calls[..|calls| - 1]), calls[|calls| - 1])
  }

  function MutationsOf(call: Call): seq<Mutation> {
    if call.V2? then call.request.mutations else []
  }

  function AllMutations(calls: seq<Call>): seq<Mutation> {
    if calls == [] then [] else AllMutations(calls[..|calls| - 1]) + MutationsOf(calls[|calls| - 1])
  }

  // A client mutation was accepted only if v2 is active.
  predicate ReceiptsActivate(core: Core) {
    core.receipts != map[] ==> core.activated
  }

  ghost predicate NumbersOfCallFit(serverId: string, log: seq<Group>, call: Call) {
    call.V2? ==> NumbersFit(serverId, log, call.now)
  }

  ghost predicate NumbersOfRunFit(env: Env, serverId: string, st: State, calls: seq<Call>) {
    calls == [] ||
    (&& NumbersOfRunFit(env, serverId, st, calls[..|calls| - 1])
     && NumbersOfCallFit(serverId, Run(env, serverId, st, calls[..|calls| - 1]).core.log, calls[|calls| - 1]))
  }

  lemma SomeReceipt(core: Core, ms: seq<Mutation>)
    requires ms != [] && Fresh(core, ms) == []
    ensures core.receipts != map[]
  {
    FreshMembers(core, ms);
    assert ms[0] in ms;
  }

  lemma {:induction false} DeliverAllKeepsActivation(env: Env, core: Core, ms: seq<Mutation>, now: nat)
    requires DeliverAll(env, core, ms, now).Ok?
    ensures DeliverAll(env, core, ms, now).value.core.activated == core.activated
    ensures ms == [] ==> DeliverAll(env, core, ms, now).value.core == core
  {
    if ms != [] {
      DeliverAllKeepsActivation(env, core, ms[..|ms| - 1], now);
    }
  }

  lemma {:induction false} FreshIsSmaller(core: Core, ms: seq<Mutation>)
    ensures |Fresh(core, ms)| <= |ms| && TotalChanges(Fresh(core, ms)) <= TotalChanges(ms)
  {
    if ms != [] {
      var init, last := ms[..|ms| - 1], ms[|ms| - 1];
      FreshIsSmaller(core, init);
      FreshStep(core, ms);
      var more := Fresh(core, init) + [last];
      assert more[..|more| - 1] == Fresh(core, init) && TotalChanges(more) == TotalChanges(Fresh(core, init)) + |last.changes|;
    }
  }

  lemma ThinnerIsValid(core: Core, req: Request)
    requires ValidRequest(req)
    ensures ValidRequest(Thinner(core, req))
  {
    hide IsIdentifier, ValidMutation, Fresh;
    FreshMembers(core, req.mutations);
    FreshIsDistinct(core, req.mutations);
    FreshIsSmaller(core, req.mutations);
    forall m | m in Fresh(core, req.mutations) ensures ValidMutation(m) {
      var i :| 0 <= i < |req.mutations| && req.mutations[i] == m;
    }
  }

  lemma FreshIsDeliverable(core: Core, ms: seq<Mutation>)
    requires Deliverable(core, ms)
    ensures Deliverable(core, Fresh(core, ms))
  {
    hide ValidMutation, IdReused;
    FreshMembers(core, ms);
    FreshIsDistinct(core, ms);
    forall m | m in Fresh(core, ms) ensures ValidMutation(m) && !IdReused(core, m) {
      var i :| 0 <= i < |ms| && ms[i] == m;
    }
  }

  lemma NothingFresh(core: Core)
    ensures Fresh(core, []) == []
  {
  }

  // Executing a request or only its fresh mutations leaves the same tables.
  lemma ThinnerExecutes(env: Env, serverId: string, core: Core, req: Request, now: nat)
    requires GoodCore(env, core) && ReceiptsActivate(core) && ValidRequest(req) && req.cursor <= |core.log|
    requires Execute(env, serverId, core, req, now).Ok? && NumbersFit(serverId, core.log, now)
    ensures var thin := Execute(env, serverId, core, Thinner(core, req), now);
            var after := Execute(env, serverId, core, req, now).value.0;
            thin.Ok? && thin.value.0 == after && ReceiptsActivate(after)
  {
    hide GoodCore, Deliverable, BuildResponse, Grew, Answered, Truthful, IsIdentifier, NumbersFit, ValidMutation, Fresh,
         DeliverAll, IdReused;
    ExecuteKeeps(env, serverId, core, req, now);
    DuplicatesChangeNothing(env, core, req.mutations, now);
    DeliverAllKeepsActivation(env, core, req.mutations, now);
    FreshIsDeliverable(core, req.mutations);
    ThinnerIsValid(core, req);
    ExecuteBuilds(env, serverId, core, Thinner(core, req), now);
    if req.mutations == [] {
      NothingFresh(core);
    } else if Fresh(core, req.mutations) == [] {
      SomeReceipt(core, req.mutations);
    }
  }

  lemma ReceiptsOfRequest(env: Env, serverId: string, st: State, req: Request, now: nat)
    requires GoodState(env, st) && Computed(env, serverId, st, req, now)
    ensures var after := Execute(env, serverId, st.core, req, now).value.0;
            && DistinctMutations(Fresh(st.core, req.mutations))
            && (forall m :: m in Fresh(st.core, req.mutations) ==> m.id !in st.core.receipts && m.id in after.receipts)
            && (forall id :: id in st.core.receipts ==> id in after.receipts)
  {
    hide Truthful, GoodCore, GoodCache, Execute, Deliverable, ValidMutation;
    ExecuteKeeps(env, serverId, st.core, req, now);
    FreshMembers(st.core, req.mutations);
    FreshIsDistinct(st.core, req.mutations);
    var after := Execute(env, serverId, st.core, req, now).value.0;
    forall m | m in Fresh(st.core, req.mutations) ensures m.id in after.receipts {
      var i :| 0 <= i < |req.mutations| && req.mutations[i] == m;
    }
  }

  // What every step keeps of the tables, and what the thinned call makes of them without a cache.
  lemma ThinIsStep(env: Env, serverId: string, st: State, call: Call)
    requires GoodState(env, st) && ValidEnv(env) && ReceiptsActivate(st.core)
    requires NumbersOfCallFit(serverId, st.core.log, call)
    ensures var thin, after := Thin(env, serverId, st, call), Step(env, serverId, st, call).core;
            && |thin| <= 1 && ReceiptsActivate(after)
            && (thin == [] ==> after == st.core)
            && (thin != [] ==> Step(env, serverId, State(st.core, []), thin[0]) == State(after, []))
            && (forall id :: id in st.core.receipts ==> id in after.receipts)
            && (thin != [] ==>
                  && DistinctMutations(MutationsOf(thin[0]))
                  && forall m :: m in MutationsOf(thin[0]) ==> m.id !in st.core.receipts && m.id in after.receipts)
  {
    hide GoodCore, GoodCache, Execute, ValidRequest, NumbersFit, ValidEnv, SyncV1, Prune, Insert, Fresh, Truthful,
         Answered;
    StateIsGood(env, st);
    match call
    case V1(changes) => SyncV1Keeps(env, st.core, changes);
    case V2(request, cacheResponse, now, later) =>
      SyncV2Keeps(env, serverId, st, request, cacheResponse, now, later);
      if Computed(env, serverId, st, request, now) {
        ThinnerExecutes(env, serverId, st.core, request, now);
        ThinnerIsValid(st.core, request);
        ReceiptsOfRequest(env, serverId, st, request, now);
        NothingCached(request.requestId);
        RequestIdIsShort(request);
      }
  }

  lemma DistinctConcat(a: seq<Mutation>, b: seq<Mutation>, seen: set<MutationId>)
    requires DistinctMutations(a) && DistinctMutations(b)
    requires forall m :: m in a ==> m.id in seen
    requires forall m :: m in b ==> m.id !in seen
    ensures DistinctMutations(a + b)
  {
    forall i, j | 0 <= i < j < |a + b| ensures (a + b)[i].id != (a + b)[j].id {
      if i < |a| <= j {
        assert a[i] in a && b[j - |a|] in b;
      }
    }
  }

  lemma RunOneMore(env: Env, serverId: string, st: State, calls: seq<Call>, call: Call)
    ensures Run(env, serverId, st, calls + [call]) == Step(env, serverId, Run(env, serverId, st, calls), call)
    ensures AllMutations(calls + [call]) == AllMutations(calls) + MutationsOf(call)
  {
    hide Step;
    assert (calls + [call])[..|calls|] == calls;
  }

  // The tables after any run are those of a run without a cache in which every call that changed
  // nothing and every mutation delivered before is left out; no mutation is in it twice.
  lemma {:induction false} RunIsItsFirstDeliveries(env: Env, serverId: string, st: State, calls: seq<Call>)
    requires GoodState(env, st) && ValidEnv(env) && ReceiptsActivate(st.core)
    requires NumbersOfRunFit(env, serverId, st, calls)
    ensures var thin, after := ThinAll(env, serverId, st, calls), Run(env, serverId, st, calls).core;
            && Run(env, serverId, State(st.core, []), thin) == State(after, [])
            && DistinctMutations(AllMutations(thin))
            && (forall m :: m in AllMutations(thin) ==> m.id !in st.core.receipts && m.id in after.receipts)
            && (forall id :: id in st.core.receipts ==> id in after.receipts)
            && ReceiptsActivate(after)
  {
    hide Step, Thin, GoodState, ValidEnv, DistinctMutations, NumbersOfCallFit, ReceiptsActivate;
    if calls == [] {
      NoMutations();
    } else {
      var init, last := calls[..|calls| - 1], calls[|calls| - 1];
      RunIsItsFirstDeliveries(env, serverId, st, init);
      RunKeeps(env, serverId, st, init);
      var mid := Run(env, serverId, st, init);
      ThinIsStep(env, serverId, mid, last);
      var done, more := ThinAll(env, serverId, st, init), Thin(env, serverId, mid, last);
      if more == [] {
        assert done + more == done;
      } else {
        assert more == [more[0]];
        RunOneMore(env, serverId, State(st.core, []), done, more[0]);
        DistinctConcat(AllMutations(done), MutationsOf(more[0]), mid.core.receipts.Keys);
      }
    }
  }

  lemma NoMutations()
    ensures DistinctMutations([])
  {
  }
}
