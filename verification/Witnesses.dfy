/** Concrete runs from an empty store that end where a promise of the documentation does not hold:
    each exact condition has a run that meets it. */
module Witnesses {
  import opened Basics
  import opened Utf8
  import opened SyncTypes
  import opened Canonical
  import opened Authority
  import opened Projection
  import opened V1Bridge
  import opened Paging
  import opened RequestCache
  import opened SyncState
  import opened SyncInvariant
  import opened SyncRuns
  import opened Lockstep
  import opened Cutover
  import opened Acceptance
  import opened FlatRows

  // ---------- Texts ----------

  function Plain(n: nat): string {
    seq(n, _ => 'n')
  }

  // Four digits.
  function IssueId(i: nat): string {
    Digits(1000 + i)
  }

  predicate IsPlain(s: string) {
    forall i :: 0 <= i < |s| ==> '0' <= s[i] <= 'z' && s[i] != '\\'
  }

  lemma {:induction false} PlainBytes(s: string)
    requires IsPlain(s)
    ensures QuotedBytes(s) == 2 + |s| && Bytes(s) == |s|
  {
    if s != [] {
      assert EscapedBytes(s[0]) == 1 && |EncodeChar(s[0])| == 1;
      PlainBytes(s[1..]);
    }
  }

  lemma PlainIsIdentifier(s: string)
    requires IsPlain(s) && 0 < |s| <= 128
    ensures IsIdentifier(s, 128)
  {
    PlainBytes(s);
    StrippedEnds(s);
  }

  lemma {:induction false} DigitsOf(n: nat, k: nat)
    requires k >= 1 && Power10(k - 1) <= n < Power10(k)
    ensures |Digits(n)| == k && IsPlain(Digits(n))
  {
    if k > 1 {
      DigitsOf(n / 10, k - 1);
    }
  }

  lemma {:induction false} DigitsAreDistinct(a: nat, b: nat)
    requires Digits(a) == Digits(b)
    ensures a == b
  {
    if a >= 10 && b >= 10 {
      assert Digits(a)[..|Digits(a)| - 1] == Digits(a / 10) && Digits(b)[..|Digits(b)| - 1] == Digits(b / 10);
      assert Digits(a)[|Digits(a)| - 1] == Digits(b)[|Digits(b)| - 1];
      DigitsAreDistinct(a / 10, b / 10);
    }
  }

  lemma IssueIdFacts(i: nat)
    requires i < 9000
    ensures |IssueId(i)| == 4 && IsIdentifier(IssueId(i), 128) && QuotedBytes(IssueId(i)) == 6
  {
    assert Power10(3) == 1000 && Power10(4) == 10000;
    DigitsOf(1000 + i, 4);
    PlainBytes(IssueId(i));
    PlainIsIdentifier(IssueId(i));
  }

  lemma OneLetter(s: string)
    requires s in {"a", "b", "d", "n", "p", "S", "T"}
    ensures IsIdentifier(s, 128) && QuotedBytes(s) == 3 && IsNonEmptyText(s, 200)
  {
    PlainBytes(s);
    PlainIsIdentifier(s);
  }

  // ---------- Wishes: entries of issues the server does not know ----------

  const HINT: Hint := Hint("S", "", 0, "T", "", None, Custom)

  function WishFor(issue: string, notes: string): Change {
    Change(issue, Upsert, Entry(EntryData(issue, false, true, false, false, 0, notes, false, 0, Some(HINT))))
  }

  function Wish(i: nat, note: nat): Change {
    WishFor(IssueId(i), Plain(note))
  }

  lemma HintIsValid()
    ensures ValidHint(Some(HINT)) && HintBytes(Some(HINT), "") == 103
  {
    OneLetter("S");
    OneLetter("T");
    assert QuotedBytes("") == 2 && Bytes("") == 0 && |Digits(0)| == 1;
  }

  lemma WishFacts(i: nat, note: nat)
    requires i < 9000 && note <= 10_000
    ensures ValidChange(Wish(i, note)) && JsonBytes(Wish(i, note)) == 343 + note && IsExplicit(Wish(i, note))
  {
    hide QuotedBytes, Encode, IsIdentifier, ValidHint;
    IssueIdFacts(i);
    HintIsValid();
    PlainBytes(Plain(note));
    HintOfIssue(IssueId(i));
    assert |Digits(0)| == 1;
  }

  lemma HintOfIssue(issue: string)
    ensures HintBytes(Some(HINT), issue) == 101 + QuotedBytes(issue)
  {
    HintIsValid();
    assert QuotedBytes("") == 2;
  }

  // ---------- What a mutation of wishes records ----------

  ghost predicate NoCopies(es: Entities) {
    forall k :: k in es ==> !es[k].data.Copy?
  }

  // The table holds no copy of an issue of the changes.
  ghost predicate NoCopiesOf(es: Entities, cs: seq<Change>) {
    forall k, c :: k in es && es[k].data.Copy? && c in cs ==> es[k].data.copy.issueId != c.id
  }

  ghost predicate AreWishes(cs: seq<Change>) {
    && (forall c :: c in cs ==> exists notes :: c == WishFor(c.id, notes))
    && forall i, j :: 0 <= i < j < |cs| ==> cs[i].id != cs[j].id
  }

  lemma WishIsNormal(es: Entities, cs: seq<Change>, c: Change)
    requires NoCopiesOf(es, cs) && AreWishes(cs) && c in cs
    ensures NormalizeOne(es, cs, c) == c
  {
    hide AreWishes;
    WishesHoldNoCopies(cs);
    assert MergedActive(es, cs, c.id) == {};
    var notes := WishNotes(cs, c);
    assert c == WishFor(c.id, notes);
  }

  lemma WishesHoldNoCopies(cs: seq<Change>)
    requires AreWishes(cs)
    ensures forall c :: c in cs ==> c.data.Entry? && HintOf(c.data).Some?
  {
    forall c | c in cs ensures c.data.Entry? && HintOf(c.data).Some? {
      var notes := WishNotes(cs, c);
    }
  }

  lemma WishNotes(cs: seq<Change>, c: Change) returns (notes: string)
    requires AreWishes(cs) && c in cs
    ensures c == WishFor(c.id, notes)
  {
    notes :| c == WishFor(c.id, notes);
  }

  lemma {:induction false} WishesAreOrdered(cs: seq<Change>)
    requires forall c :: c in cs ==> c.data.Entry?
    ensures Ordered(cs) == cs && IssueChanges(cs) == []
  {
    hide IssueChanges, OtherChanges;
    if cs == [] {
      NothingOrdered();
    } else {
      var init, last := cs[..|cs| - 1], cs[|cs| - 1];
      assert cs == init + [last] && last in cs && forall c :: c in init ==> c in cs;
      WishesAreOrdered(init);
      OrderedStep(init, last);
    }
  }

  lemma WishesAreNormal(es: Entities, cs: seq<Change>)
    requires NoCopiesOf(es, cs) && AreWishes(cs)
    ensures Normalized(es, cs) == cs
  {
    hide AreWishes, NormalizeOne, NoCopiesOf;
    WishesHoldNoCopies(cs);
    assert MissingEntries(cs) == {};
    forall i | 0 <= i < |cs| ensures NormalizeOne(es, cs, cs[i]) == cs[i] {
      WishIsNormal(es, cs, cs[i]);
    }
  }

  // In a table without copies of their issues the canonical group of some wishes are the wishes.
  lemma WishesAreCanonical(es: Entities, cs: seq<Change>)
    requires NoCopiesOf(es, cs) && AreWishes(cs)
    ensures Canonicalize(es, cs) == Ok(cs)
  {
    hide AreWishes, NormalizeOne, NoCopiesOf, KnownIssue, Normalized, DistinctKeys;
    WishesHoldNoCopies(cs);
    WishesAreOrdered(cs);
    WishesAreNormal(es, cs);
    WishesAreDistinct(cs);
  }

  lemma WishesAreDistinct(cs: seq<Change>)
    requires AreWishes(cs)
    ensures DistinctKeys(cs)
  {
    forall i, j | 0 <= i < j < |cs| ensures KeyOf(cs[i]) != KeyOf(cs[j]) {
      assert cs[i].id != cs[j].id;
    }
  }

  lemma WishesLeaveNoCopies(es: Entities, cs: seq<Change>, revision: nat)
    requires NoCopies(es) && AreWishes(cs)
    ensures NoCopies(Record(es, cs, revision))
  {
    hide AreWishes, Record;
    WishesHoldNoCopies(cs);
    WishesAreDistinct(cs);
    RecordAt(es, cs, revision);
  }

  // ---------- Requests ----------

  function Asking(id: string, limit: nat, mutations: seq<Mutation>): Request {
    Request(id, "d", "", 0, limit, mutations)
  }

  function Writing(id: string, changes: seq<Change>): Request {
    Asking(id, 1, [Mutation(Text(id), 0, changes)])
  }

  lemma AskingIsValid(id: string, limit: nat)
    requires id in {"a", "b", "p"} && 1 <= limit <= MAX_V2_LIMIT
    ensures ValidRequest(Asking(id, limit, []))
  {
    OneLetter(id);
    OneLetter("d");
  }

  lemma WritingIsValid(id: string, changes: seq<Change>)
    requires id in {"a", "b", "p"} && 1 <= |changes| <= MAX_V2_CHANGES
    requires forall i :: 0 <= i < |changes| ==> ValidChange(changes[i])
    ensures ValidRequest(Writing(id, changes)) && ValidMutation(Mutation(Text(id), 0, changes))
  {
    hide IsIdentifier, ValidChange;
    OneLetter(id);
    OneLetter("d");
    var m := Mutation(Text(id), 0, changes);
    assert [m][..0] == [] && TotalChanges([m][..0]) == 0;
    assert TotalChanges([m]) == |changes|;
  }

  lemma OneCall(env: Env, serverId: string, st: State, call: Call)
    ensures Run(env, serverId, st, [call]) == Step(env, serverId, st, call)
  {
    hide Step;
    assert [call][..|[call]| - 1] == [];
    assert Run(env, serverId, st, [call][..|[call]| - 1]) == st;
  }

  lemma TwoCalls(env: Env, serverId: string, st: State, a: Call, b: Call)
    ensures Run(env, serverId, st, [a, b]) == Step(env, serverId, Step(env, serverId, st, a), b)
  {
    hide Step;
    assert [a, b][..|[a, b]| - 1] == [a];
    OneCall(env, serverId, st, a);
  }

  function EmptyStore(): State {
    State(Core([], map[], map[], map[], false), [])
  }

  lemma EmptyStoreIsOpened(env: Env)
    ensures Opened(env, map[]) == Ok(EmptyStore().core) && GoodState(env, EmptyStore())
  {
    EmptyIsGood(env, map[]);
    EmptyCacheIsGood(env, EmptyStore().core);
    var comics: Comics := map[];
    assert comics.Keys == {} && SortedTexts({}) == [];
  }

  // ---------- An answer over the response limit ----------

  // Wishes for consecutive issues with notes of these lengths.
  function Wishes(from: nat, notes: seq<nat>): seq<Change> {
    seq(|notes|, i requires 0 <= i < |notes| => Wish(from + i, notes[i]))
  }

  lemma WishIsFor(i: nat, note: nat)
    ensures Wish(i, note) == WishFor(IssueId(i), Plain(note)) && Wish(i, note).id == IssueId(i)
  {
  }

  lemma WishesAreWishes(from: nat, notes: seq<nat>)
    requires from + |notes| <= 9000 && forall i :: 0 <= i < |notes| ==> notes[i] <= 10_000
    ensures AreWishes(Wishes(from, notes))
    ensures forall i :: 0 <= i < |notes| ==> ValidChange(Wishes(from, notes)[i])
  {
    hide ValidChange, Digits, Wish, WishFor, IssueId;
    var cs := Wishes(from, notes);
    forall i | 0 <= i < |notes| ensures ValidChange(cs[i]) && cs[i].id == IssueId(from + i) {
      WishFacts(from + i, notes[i]);
      WishIsFor(from + i, notes[i]);
    }
    forall c | c in cs ensures exists notes :: c == WishFor(c.id, notes) {
      var i :| 0 <= i < |cs| && cs[i] == c;
      WishIsFor(from + i, notes[i]);
    }
    forall i, j | 0 <= i < j < |notes| ensures cs[i].id != cs[j].id {
      IssueIdsDiffer(from + i, from + j);
    }
  }

  lemma IssueIdsDiffer(i: nat, j: nat)
    requires i != j
    ensures IssueId(i) != IssueId(j)
  {
    if IssueId(i) == IssueId(j) {
      DigitsAreDistinct(1000 + i, 1000 + j);
    }
  }

  function LongNotes(count: nat): seq<nat> {
    seq(count, _ => 10_000)
  }

  lemma LongWishBytes(env: Env, from: nat, count: nat)
    requires MeasuresJson(env) && from + count <= 9000
    ensures SumOfChanges(env, Wishes(from, LongNotes(count))) == 10_343 * count
  {
    hide MeasuresJson, Wish, JsonBytes, IsExplicit;
    var cs := Wishes(from, LongNotes(count));
    forall c | c in cs ensures env.changeBytes(c) == 10_343 {
      var i :| 0 <= i < |cs| && cs[i] == c;
      WishBytes(env, from + i, 10_000);
    }
    SumOfEqual(env, cs, 10_343);
  }

  lemma WishBytes(env: Env, i: nat, note: nat)
    requires MeasuresJson(env) && i < 9000 && note <= 10_000
    ensures env.changeBytes(Wish(i, note)) == 343 + note
  {
    hide Wish, JsonBytes, IsExplicit;
    WishFacts(i, note);
  }

  function FirstWishes(): seq<Change> {
    Wishes(0, LongNotes(400))
  }

  function MoreWishes(rest: nat): seq<Change> {
    Wishes(400, LongNotes(208) + [rest])
  }

  lemma GroupSizes(env: Env, rest: nat)
    requires MeasuresJson(env) && rest <= 10_000
    ensures ChangesBytes(env, FirstWishes()) == 4_137_601
    ensures ChangesBytes(env, MoreWishes(rest)) == 2_151_897 + rest
  {
    hide MeasuresJson, Wish;
    LongWishBytes(env, 0, 400);
    LongWishBytes(env, 400, 208);
    var more := MoreWishes(rest);
    assert more[..|more| - 1] == Wishes(400, LongNotes(208));
    assert more[|more| - 1] == Wish(608, rest);
    WishBytes(env, 608, rest);
  }

  // The whole log of two groups of wishes, as the size of a page is measured.
  lemma MeasureOfTwo(env: Env, serverId: string, log: seq<Group>, req: Request, cs: seq<Change>, ds: seq<Change>)
    requires log == [Group(Text("a"), cs), Group(Text("b"), ds)] && req == Asking("p", 2, [])
    ensures ResponseBytes(env, serverId, WholeRest(log, req, [], 0))
            == 220 + QuotedBytes(serverId) + ChangesBytes(env, cs) + ChangesBytes(env, ds)
  {
    hide ChangesBytes, QuotedBytes, IsIdentifier, IsNonEmptyText;
    var g, h := PageGroup(1, Text("a"), cs), PageGroup(2, Text("b"), ds);
    assert PageOf(log, 0, 2) == [g, h];
    OneLetter("a");
    OneLetter("b");
    OneLetter("p");
    assert |Digits(0)| == 1 && |Digits(1)| == 1 && |Digits(2)| == 1;
    assert [g, h][..1] == [g] && [g][..0] == [] && SumOfGroups(env, [g][..0]) == 0;
    assert SumOfGroups(env, [g]) == GroupBytes(env, g);
  }

  function NotesLeft(serverId: string): int {
    1738 - QuotedBytes(serverId)
  }

  lemma NotesLeftFit(serverId: string)
    requires IsIdentifier(serverId, 128)
    ensures 0 <= NotesLeft(serverId) <= 10_000
  {
    QuotedBytesBound(serverId);
    QuotedBytesAtMost(serverId);
  }

  lemma AffectedByWishes(cs: seq<Change>)
    requires AreWishes(cs)
    ensures forall i :: i in Affected(cs) ==> exists c :: c in cs && c.id == i
  {
    forall i | i in Affected(cs) ensures exists c :: c in cs && c.id == i {
      var c :| c in cs && ChangeIssue(c) == i;
      var notes := WishNotes(cs, c);
      assert c.id == i;
    }
  }

  // One request that records some wishes.
  lemma WritesWishes(env: Env, serverId: string, st: State, id: string, cs: seq<Change>, now: nat)
    requires GoodState(env, st) && st.cache == [] && |st.core.log| <= 1 && NoCopiesOf(st.core.entities, cs)
    requires id in {"a", "b"} && !InLog(st.core.log, Text(id)) && IsIdentifier(serverId, 128) && now < MAX_INT64
    requires AreWishes(cs) && 1 <= |cs| <= MAX_V2_CHANGES && forall i :: 0 <= i < |cs| ==> ValidChange(cs[i])
    requires ChangesBytes(env, cs) <= MAX_V2_GROUP_BYTES && forall c :: c in cs ==> c.id !in st.core.comics
    ensures var after := Step(env, serverId, st, V2(Writing(id, cs), false, now, now));
            && GoodState(env, after) && after.cache == []
            && after.core.log == st.core.log + [Group(Text(id), cs)]
            && after.core.entities == Record(st.core.entities, cs, |st.core.log| + 1)
            && RefreshAll(after.core.entities, st.core.comics, SortedTexts(Affected(cs)), now) == Ok(after.core.comics)
            && forall row :: row in after.core.comics ==> row in st.core.comics || exists c :: c in cs && LandsOn(c.id, row)
  {
    hide GoodCore, GoodCache, AreWishes, ValidChange, ValidRequest, Canonicalize, ChangesBytes, Affected, LandsOn,
         NoCopiesOf, SyncV2, IsIdentifier, FindRow, Record, RefreshAll;
    var m := Mutation(Text(id), 0, cs);
    WritingIsValid(id, cs);
    WishesAreCanonical(st.core.entities, cs);
    AffectedByWishes(cs);
    assert FindRow([], id).None? by { NothingCached(id); }
    OneMutationIsRecorded(env, serverId, st, Writing(id, cs), m, now, now, cs);
    var after := SyncV2(env, serverId, st, Writing(id, cs), false, now, now).0;
    StateIsGood(env, st);
    StateIsGood(env, after);
    TablesAfter(env, st.core, after.core, Group(Text(id), cs));
  }

  lemma TablesAfter(env: Env, before: Core, after: Core, g: Group)
    requires GoodCore(env, before) && GoodCore(env, after) && after.log == before.log + [g]
    ensures after.entities == Record(before.entities, g.changes, |before.log| + 1)
  {
    hide CopyAuthority, ValidEntities, ValidComics, GoodHistory, Record;
    ReplayOfAppend(before.log, g);
  }

  // Two requests of 400 and 209 wishes after which a poll from the beginning is answered with the
  // whole log in one byte more than an answer may take.
  lemma AnswerPassesLimit(env: Env, serverId: string) returns (calls: seq<Call>, poll: Request)
    requires ValidEnv(env) && MeasuresJson(env) && IsIdentifier(serverId, 128)
    ensures Opened(env, map[]).Ok? && ValidRequest(poll)
    ensures var st := Run(env, serverId, State(Opened(env, map[]).value, []), calls);
            var answer := SyncV2(env, serverId, st, poll, false, 0, 0).1;
            && answer.Ok? && !answer.value.hasMore
            && ResponseBytes(env, serverId, answer.value) == MAX_V2_RESPONSE_BYTES + 1
  {
    hide ValidEnv, MeasuresJson, IsIdentifier, Opened, GoodState, Step, AreWishes, ValidChange, ResponseBytes,
         FirstWishes,
         MoreWishes, ChangesBytes, LandsOn, Canonicalize, NoCopies, NoCopiesOf, ValidRequest, Record, SyncV2, RefreshAll,
         Affected;
    NotesLeftFit(serverId);
    var rest: nat := NotesLeft(serverId);
    var cs, ds := FirstWishes(), MoreWishes(rest);
    EmptyStoreIsOpened(env);
    BothGroups(rest);
    GroupSizes(env, rest);
    EmptyHasNoCopies();
    var start := EmptyStore();
    NoneOfThese(start.core.entities, cs);
    WritesWishes(env, serverId, start, "a", cs, 0);
    var first, second := V2(Writing("a", cs), false, 0, 0), V2(Writing("b", ds), false, 0, 0);
    var mid := Step(env, serverId, start, first);
    forall c | c in ds ensures c.id !in mid.core.comics {
      NewIssue(rest, c);
    }
    assert mid.core.log == [Group(Text("a"), cs)];
    assert !InLog(mid.core.log, Text("b"));
    WishesLeaveNoCopies(start.core.entities, cs, 1);
    NoneOfThese(mid.core.entities, ds);
    WritesWishes(env, serverId, mid, "b", ds, 0);
    var st := Step(env, serverId, mid, second);
    TwoCalls(env, serverId, start, first, second);
    calls, poll := [first, second], Asking("p", 2, []);
    assert st.core.log == [Group(Text("a"), cs), Group(Text("b"), ds)];
    MeasureOfTwo(env, serverId, st.core.log, poll, cs, ds);
    PollIsBuilt(env, serverId, st, poll);
  }

  lemma NoneOfThese(es: Entities, cs: seq<Change>)
    requires NoCopies(es)
    ensures NoCopiesOf(es, cs)
  {
  }

  lemma EmptyHasNoCopies()
    ensures NoCopies(map[])
  {
  }

  lemma BothGroups(rest: nat)
    requires rest <= 10_000
    ensures AreWishes(FirstWishes()) && |FirstWishes()| == 400
    ensures AreWishes(MoreWishes(rest)) && |MoreWishes(rest)| == 209
    ensures forall i :: 0 <= i < 400 ==> ValidChange(FirstWishes()[i])
    ensures forall i :: 0 <= i < 209 ==> ValidChange(MoreWishes(rest)[i])
  {
    hide AreWishes, ValidChange, Wish;
    WishesAreWishes(0, LongNotes(400));
    WishesAreWishes(400, LongNotes(208) + [rest]);
  }

  // No row of the first group is one of an issue of the second.
  lemma NewIssue(rest: nat, c: Change)
    requires c in MoreWishes(rest)
    ensures forall d :: d in FirstWishes() ==> !LandsOn(d.id, c.id)
  {
    hide Wishes, Wish, LandsOn;
    var j := WishAt(400, LongNotes(208) + [rest], c);
    forall d | d in FirstWishes() ensures !LandsOn(d.id, c.id) {
      var i := WishAt(0, LongNotes(400), d);
      LandsOnNoOther(i, 400 + j);
    }
  }

  lemma WishAt(from: nat, notes: seq<nat>, c: Change) returns (i: nat)
    requires c in Wishes(from, notes)
    ensures i < |notes| && c.id == IssueId(from + i)
  {
    hide Wish;
    i :| 0 <= i < |notes| && Wishes(from, notes)[i] == c;
    WishIsFor(from + i, notes[i]);
  }

  lemma LandsOnNoOther(i: nat, j: nat)
    requires i < 9000 && i != j
    ensures !LandsOn(IssueId(i), IssueId(j))
  {
    IssueIdFacts(i);
    IssueIdsDiffer(i, j);
    hide IssueId;
  }

  // A poll from the beginning over a short log of a reachable state.
  lemma PollIsBuilt(env: Env, serverId: string, st: State, poll: Request)
    requires GoodState(env, st) && st.cache == [] && 0 < |st.core.log| <= 2 && IsIdentifier(serverId, 128)
    requires poll == Asking("p", 2, [])
    ensures ValidRequest(poll)
    ensures ResponseBytes(env, serverId, WholeRest(st.core.log, poll, [], 0)) == MAX_V2_RESPONSE_BYTES ==>
              var answer := SyncV2(env, serverId, st, poll, false, 0, 0).1;
              && answer.Ok? && !answer.value.hasMore
              && ResponseBytes(env, serverId, answer.value) == MAX_V2_RESPONSE_BYTES + 1
  {
    hide GoodTables, GoodCache, ResponseBytes, WholeRest, IsIdentifier, BuildResponse, ValidRequest, SmallGroup;
    AskingIsValid("p", 2);
    OneLetter("p");
    NothingCached("p");
    assert GoodGroups(env, st.core.log);
    AnswerPassesLimitIff(env, serverId, st.core.log, poll, [], 0);
    assert DeliverAll(env, st.core, [], 0) == Ok(Delivery(st.core, []));
  }

  // ---------- An id that is too long for its row ----------

  // A copy of an issue with a name of 65 characters.
  function LongCopy(): Change {
    Change("n", Upsert, Copy(CopyData(Plain(65), 0, true, "", None, None, "", false, 0, Some(HINT))))
  }

  lemma LongCopyIsValid()
    ensures ValidChange(LongCopy()) && IsIdentifier(Plain(65), 128) && |Plain(65)| == 65
  {
    hide IsIdentifier, ValidHint;
    PlainIsIdentifier(Plain(65));
    OneLetter("n");
    HintIsValid();
    assert Bytes("") == 0;
  }

  // The canonical group of a copy of a new issue is the copy and the entry it implies.
  lemma OneCopyIsAccepted(c: Change)
    requires c.data.Copy? && c.data.copy.hint.Some?
    ensures var r := Canonicalize(map[], [c]); r.Ok? && |r.value| == 2 && c in r.value && DistinctKeys(r.value)
    ensures Affected(Canonicalize(map[], [c]).value) == (if ChangeIssue(c) == "" then {} else {ChangeIssue(c)})
  {
    hide Ordered, Normalized, KnownIssue, NormalizeEntry, ImpliedEntry, MergedActive;
    var issue, e := c.data.copy.issueId, AddedEntry(map[], [c], c.data.copy.issueId);
    OneIsOrdered(c);
    NormalizedOfCopy(c);
    AddedIsEntry(map[], [c], issue);
    assert [c, e][0] in [c, e] && [c, e][1] in [c, e];
    assert Acceptable(map[], [c], c);
  }

  lemma AddedIsEntry(es: Entities, cs: seq<Change>, issue: string)
    requires WellKeyed(es) && OperationsAgree(es)
    ensures GoodEntry(AddedEntry(es, cs, issue)) && AddedEntry(es, cs, issue).id == issue
  {
    hide NormalizeEntry, ImpliedEntry, MergedActive;
    ImpliedEntryIsGood(es, cs, issue);
    NormalizedEntryAgrees(es, ImpliedEntry(es, cs, issue), |MergedActive(es, cs, issue)|);
  }

  lemma NormalizedOfCopy(c: Change)
    requires c.data.Copy?
    ensures Normalized(map[], [c]) == [c, AddedEntry(map[], [c], c.data.copy.issueId)]
  {
    hide NormalizeEntry, ImpliedEntry, MergedActive;
    var cs, issue := [c], c.data.copy.issueId;
    assert cs[0] == c && MissingEntries(cs) == {issue};
    SortedOfOne(issue);
    assert NormalizeOne(map[], cs, c) == c;
  }

  lemma OneIsOrdered(c: Change)
    requires !c.data.Issue?
    ensures Ordered([c]) == [c]
  {
    OrderedStep([], c);
    assert [] + [c] == [c];
  }

  lemma SortedOfOne(x: string)
    ensures SortedTexts({x}) == [x]
  {
    assert {x} - {x} == {};
  }

  lemma GroupOfOneFits(env: Env, m: Mutation)
    requires MeasuresJson(env) && ValidMutation(m) && Canonicalize(map[], m.changes).Ok?
    requires |Canonicalize(map[], m.changes).value| <= 50
    ensures ChangesBytes(env, Canonicalize(map[], m.changes).value) <= MAX_V2_GROUP_BYTES
  {
    hide MeasuresJson, ValidData, Encode, Normalized, ChangesBytes, Ordered, IsIdentifier;
    EmptyIsAuthorised();
    var canonical := Canonicalize(map[], m.changes).value;
    assert forall c :: c in m.changes ==> ValidChange(c);
    forall d | d in canonical ensures ValidData(d.data) && Bytes(d.id) <= 512 {
      CanonicalIsValid(map[], m.changes, d);
      CanonicalIdIsShort(m.changes, d);
    }
    FewChangesFit(env, canonical);
  }

  lemma CanonicalIdIsShort(cs: seq<Change>, d: Change)
    requires (forall c :: c in cs ==> ValidChange(c)) && d in Normalized(map[], Ordered(cs))
    requires ValidData(d.data) && WellKeyed(map[]) && OperationsAgree(map[])
    ensures Bytes(d.id) <= 512
  {
    hide Normalized, Encode, ValidHint;
    if d.data.Entry? {
      var e := CanonicalEntry(map[], cs, d);
      NormalizedEntryAgrees(map[], e, |MergedActive(map[], Ordered(cs), d.id)|);
    } else {
      CanonicalOther(map[], Ordered(cs), d);
      OrderedMembers(cs);
      var o :| o in cs && CanonicalChange(o) == d;
      assert ValidChange(o);
    }
  }

  // One request that adds a copy of an issue with a longer name leaves the issue without a row.
  lemma LongIssueHasNoRow(env: Env, serverId: string) returns (call: Call)
    requires ValidEnv(env) && MeasuresJson(env) && IsIdentifier(serverId, 128)
    ensures Opened(env, map[]).Ok?
    ensures var core := Run(env, serverId, State(Opened(env, map[]).value, []), [call]).core;
            && Touched(core, Plain(65)) && HasEntry(core.entities, Plain(65))
            && !RowAgrees(core.entities, core.comics, Plain(65))
  {
    hide ValidEnv, MeasuresJson, IsIdentifier, Opened, GoodCore, GoodCache, Canonicalize, ChangesBytes, ValidChange,
         RowAgrees,
         SyncV2, ValidRequest, Affected, LandsOn, HasEntry, FindRow;
    EmptyStoreIsOpened(env);
    var c, start := LongCopy(), EmptyStore();
    var m := Mutation(Text("a"), 0, [c]);
    LongCopyIsValid();
    WritingIsValid("a", [c]);
    OneCopyIsAccepted(c);
    GroupOfOneFits(env, m);
    NothingCached("a");
    call := V2(Writing("a", [c]), false, 0, 0);
    OneCall(env, serverId, start, call);
    var canonical := Canonicalize(map[], [c]).value;
    OneMutationIsRecorded(env, serverId, start, Writing("a", [c]), m, 0, 0, canonical);
    var after := Step(env, serverId, start, call).core;
    LongIssueIsTouched(env, start.core, after, m.id, canonical, c);
  }

  lemma LongIssueIsTouched(env: Env, before: Core, after: Core, id: MutationId, canonical: seq<Change>, c: Change)
    requires GoodCore(env, before) && GoodCore(env, after) && after.log == before.log + [Group(id, canonical)]
    requires DistinctKeys(canonical) && id in after.receipts && c in canonical && c.data.Copy?
    requires |c.data.copy.issueId| > 64
    ensures Touched(after, c.data.copy.issueId) && HasEntry(after.entities, c.data.copy.issueId)
    ensures !RowAgrees(after.entities, after.comics, c.data.copy.issueId)
  {
    hide GoodHistory, ValidEntities, Record, RowAgrees, EntriesFollowCopies, OperationsAgree, IssuesDescribed;
    TablesAfter(env, before, after, Group(id, canonical));
    var issue, at := c.data.copy.issueId, |before.log|;
    assert after.log[at].mutationId in after.receipts && Touches(after.log[at].changes, issue) by {
      assert ChangeIssue(c) == issue;
    }
    StoredEntry(env, before, after, canonical, c);
    LongHasNoRow(after, issue);
  }

  lemma StoredEntry(env: Env, before: Core, after: Core, canonical: seq<Change>, c: Change)
    requires GoodCore(env, after) && after.entities == Record(before.entities, canonical, |before.log| + 1)
    requires DistinctKeys(canonical) && c in canonical && c.data.Copy?
    ensures HasEntry(after.entities, c.data.copy.issueId)
  {
    hide GoodHistory, ValidEntities, ValidComics, EntriesFollowCopies, OperationsAgree, IssuesDescribed, Record;
    RecordAt(before.entities, canonical, |before.log| + 1);
    assert after.entities[KeyOf(c)] == Entity(c.op, c.data, |before.log| + 1);
  }

  // ---------- A v1 write ----------

  function PlainComic(updatedAt: int): Comic {
    Comic(IssueId(0), "S", "", 0, "T", "", None, false, false, "", None, None, false, "", "", "", 0, None, "", "",
          false, updatedAt)
  }

  lemma PlainComicIsValid(updatedAt: int)
    requires 0 <= updatedAt <= MAX_INT64
    ensures ValidComic(PlainComic(updatedAt))
  {
    IssueIdFacts(0);
    hide IssueId;
    assert "" in CONDITION_GRADES;
  }

  // A first v1 write is one group, whatever was cached.
  lemma FirstWrite(env: Env, serverId: string, st: State, updatedAt: int)
    requires ValidEnv(env) && MeasuresJson(env) && st.core == EmptyStore().core && 0 <= updatedAt <= MAX_INT64
    ensures var after, c := Step(env, serverId, st, V1([PlainComic(updatedAt)])), PlainComic(updatedAt);
            && after.cache == st.cache && after.core.comics == map[c.id := c]
            && after.core.log == [Group(V1Write(c), V1Canonical(env, c))]
  {
    hide ValidEnv, MeasuresJson, V1Canonical, ChangesBytes, ValidateComic, WriteV1, V1Shaped, Anchored, WellKeyed,
         Record;
    var c := PlainComic(updatedAt);
    PlainComicIsValid(updatedAt);
    EmptyIsInPhase(env);
    ComicFits(env, c);
    WriteV1InLockstep(env, st.core, c);
    OneWrite(env, st.core, c);
    assert StoredComic(c) == c;
  }

  lemma EmptyIsInPhase(env: Env)
    ensures V1Phase(env, EmptyStore().core) && WellKeyed(EmptyStore().core.entities)
  {
    EmptyStoreIsOpened(env);
    OpenedInLockstep(env, map[]);
    assert Opened(env, map[]).value == EmptyStore().core;
  }

  lemma OneWrite(env: Env, core: Core, c: Comic)
    requires ValidateComic(c) == Some(c) && !core.activated
    ensures SyncV1(env, core, [c]) == WriteV1(env, core, c)
  {
    hide ValidateComic, WriteV1;
    assert [c][..|[c]| - 1] == [] && CleanAll([c][..|[c]| - 1]) == Some([]);
    assert [] + [c] == [c];
    assert WriteAllV1(env, core, [c][..|[c]| - 1]) == Ok(core);
  }

  // ---------- A row that no mutation can replace ----------

  function NewTitle(issue: string): Change {
    Change(issue, Upsert, Issue(IssueData("S", "", 0, "T", "", None, None, "", "", false)))
  }

  lemma NewTitleIsValid()
    ensures ValidChange(NewTitle(IssueId(0)))
  {
    hide IsIdentifier;
    IssueIdFacts(0);
    hide IssueId;
    OneLetter("S");
    OneLetter("T");
    assert Bytes("") == 0;
  }

  lemma TitleIsAccepted(es: Entities, issue: string)
    requires issue != ""
    ensures Canonicalize(es, [NewTitle(issue)]) == Ok([NewTitle(issue)])
    ensures Affected([NewTitle(issue)]) == {issue}
  {
    hide Normalized;
    var c := NewTitle(issue);
    TitleIsOrdered(issue);
    TitleIsNormal(es, issue);
    assert [c][0] in [c] && ChangeIssue(c) == issue;
    assert forall d :: d in [c] ==> d == c;
  }

  lemma TitleIsOrdered(issue: string)
    ensures Ordered([NewTitle(issue)]) == [NewTitle(issue)]
  {
    hide IssueChanges, OtherChanges;
    var c, none: seq<Change> := NewTitle(issue), [];
    OrderedStep(none, c);
    NothingOrdered();
    assert none + [c] == [c] && CanonicalChange(c) == c;
  }

  lemma TitleIsNormal(es: Entities, issue: string)
    ensures Normalized(es, [NewTitle(issue)]) == [NewTitle(issue)]
  {
    var cs := [NewTitle(issue)];
    assert cs[0] in cs && MissingEntries(cs) == {} && SortedTexts({}) == [];
    assert NormalizeOne(es, cs, cs[0]) == cs[0];
  }

  // After a v1 write with the largest timestamp, a mutation of that comic is refused whenever it
  // is sent, and nothing changes.
  lemma LargestTimestampBlocks(env: Env, serverId: string, now: nat, later: nat, cacheResponse: bool)
    returns (call: Call, req: Request)
    requires ValidEnv(env) && MeasuresJson(env) && IsIdentifier(serverId, 128) && now < MAX_INT64
    ensures Opened(env, map[]).Ok? && call.V1? && ValidRequest(req)
    ensures var st := Run(env, serverId, State(Opened(env, map[]).value, []), [call]);
            SyncV2(env, serverId, st, req, cacheResponse, now, later) == (st, Err(InternalError))
  {
    hide ValidEnv, MeasuresJson, IsIdentifier, Opened, GoodState, Canonicalize, ChangesBytes, ValidChange, SyncV2,
         ValidRequest, Affected, FindRow, Step, V1Canonical, SomeRowAtLimit, Deliver;
    EmptyStoreIsOpened(env);
    var start, c := EmptyStore(), PlainComic(MAX_INT64);
    var title := NewTitle(c.id);
    var m := Mutation(Text("a"), 0, [title]);
    call, req := V1([c]), Writing("a", [title]);
    NewTitleIsValid();
    WritingIsValid("a", [title]);
    OneCall(env, serverId, start, call);
    FirstWrite(env, serverId, start, MAX_INT64);
    StepKeeps(env, serverId, start, call);
    var st := Step(env, serverId, start, call);
    NothingCached("a");
    assert !InLog(st.core.log, m.id);
    IssueIdFacts(0);
    TitleIsAccepted(st.core.entities, c.id);
    OneTitleFits(env);
    RowIsAtLimit(st.core, c);
    StateIsGood(env, st);
    NewHasNoReceipt(env, st.core, m);
    NewMutationIsRecordedIff(env, st.core, m, now);
    OneMutationAnswered(env, serverId, st, req, m, cacheResponse, now, later);
  }

  lemma OneTitleFits(env: Env)
    requires MeasuresJson(env)
    ensures ChangesBytes(env, [NewTitle(IssueId(0))]) <= MAX_V2_GROUP_BYTES
  {
    hide MeasuresJson, Encode, ChangesBytes, Strip, ValidData;
    NewTitleIsValid();
    FewChangesFit(env, [NewTitle(IssueId(0))]);
  }

  lemma RowIsAtLimit(core: Core, c: Comic)
    requires core.comics == map[c.id := c] && c.updatedAt == MAX_INT64 && c.id != ""
    ensures SomeRowAtLimit(core, [NewTitle(c.id)])
  {
    hide Record;
    var cs, k := [NewTitle(c.id)], Key(CustomIssue, c.id);
    RecordAt(core.entities, cs, |core.log| + 1);
    assert cs[0] in cs && KeyOf(cs[0]) == k;
    assert Stored(core, cs)[k] == Entity(cs[0].op, cs[0].data, |core.log| + 1);
    assert c.id in Affected(cs) && AtClockLimit(Stored(core, cs), core.comics, c.id);
  }

  // ---------- A cached answer that is old ----------

  // A client polls an empty store, another device writes, and the client's retry of its poll is
  // answered from the cache: nothing follows, it says, and the client's map is not the server's.
  lemma CachedAnswerIsOld(env: Env, serverId: string) returns (poll: Request, call: Call)
    requires ValidEnv(env) && MeasuresJson(env) && IsIdentifier(serverId, 128)
    ensures Opened(env, map[]).Ok?
    ensures var start := System(State(Opened(env, map[]).value, []), Client(0, []));
            var s := HappenAll(env, serverId, start, [Poll(poll, true, 0, 0), Other(call)]);
            var answer := SyncV2(env, serverId, s.st, Asked(s.client, poll), true, 0, 0).1;
            var after := Happen(env, serverId, s, Poll(poll, true, 0, 0));
            && answer.Ok? && !answer.value.hasMore && after.client == Taken(s.client, answer)
            && ReplayPages(after.client.received) != after.st.core.entities
  {
    hide ValidEnv, MeasuresJson, Opened, GoodCore, SyncV2, ValidRequest, Step, Happen, V1Canonical, ReplayPages,
         PlainComic, IsIdentifier;
    EmptyStoreIsOpened(env);
    poll, call := Asking("p", 1, []), V1([PlainComic(0)]);
    var start := System(EmptyStore(), Client(0, []));
    var first := Poll(poll, true, 0, 0);
    FirstPollIsCached(env, serverId, start, poll);
    var mid := Happen(env, serverId, start, first);
    FirstWrite(env, serverId, mid.st, 0);
    HappenKeeps(env, serverId, mid, Other(call));
    HappenOther(env, serverId, mid, call);
    TwoEvents(env, serverId, start, first, Other(call));
    var s := Happen(env, serverId, mid, Other(call));
    AnsweredFromCache(env, serverId, s, poll);
    FinalPageIsCurrent(env, serverId, s, poll, true, 0, 0);
  }

  lemma HappenOther(env: Env, serverId: string, s: System, call: Call)
    ensures Happen(env, serverId, s, Other(call)) == s.(st := Step(env, serverId, s.st, call))
  {
    hide Step, SyncV2;
  }

  lemma TwoEvents(env: Env, serverId: string, s: System, a: Event, b: Event)
    ensures HappenAll(env, serverId, s, [a, b]) == Happen(env, serverId, Happen(env, serverId, s, a), b)
  {
    hide Happen;
    assert [a, b][..|[a, b]| - 1] == [a] && [a][..|[a]| - 1] == [];
    assert HappenAll(env, serverId, s, [a][..|[a]| - 1]) == s;
    assert HappenAll(env, serverId, s, [a]) == Happen(env, serverId, s, a);
  }

  // What is cached for the poll says that nothing follows cursor zero.
  ghost predicate SaysNothingFollows(cache: Cache, poll: Request) {
    var row := FindRow(cache, poll.requestId);
    row.Some? && row.value.payload == poll && row.value.response.nextCursor == 0 && !row.value.response.hasMore
  }

  lemma FirstPollIsCached(env: Env, serverId: string, start: System, poll: Request)
    requires start == System(EmptyStore(), Client(0, [])) && poll == Asking("p", 1, [])
    requires IsIdentifier(serverId, 128) && GoodState(env, start.st)
    ensures var s := Happen(env, serverId, start, Poll(poll, true, 0, 0));
            && s.st.core == start.st.core && s.client == start.client && InStep(env, s)
            && SaysNothingFollows(s.st.cache, poll) && ValidRequest(poll)
  {
    hide GoodCore, SyncV2, ValidRequest, Execute, IsIdentifier, DistinctRequests, InEvictionOrder;
    AskingIsValid("p", 1);
    NothingCached("p");
    FreshPollAdvances(env, serverId, start, Poll(poll, true, 0, 0));
    PollKeeps(env, serverId, start, poll, true, 0, 0);
    SyncV2Keeps(env, serverId, start.st, poll, true, 0, 0);
    AnswerIsCached(env, serverId, start.st, poll, 0, 0);
    var out := SyncV2(env, serverId, start.st, poll, true, 0, 0);
    MemberIsFound(out.0.cache, CacheRow(poll.requestId, poll, out.1.value, 0));
    MoreMoves(out.0.core.log, 0, out.1.value);
  }

  lemma AnsweredFromCache(env: Env, serverId: string, s: System, poll: Request)
    requires SaysNothingFollows(s.st.cache, poll) && ValidRequest(poll) && poll.serverId == "" && poll.cursor == 0
    requires s.client.cursor == 0
    ensures var answer := SyncV2(env, serverId, s.st, Asked(s.client, poll), true, 0, 0).1;
            answer.Ok? && !answer.value.hasMore
  {
    hide ValidRequest;
    assert Asked(s.client, poll) == poll;
  }

  // ---------- A change that the next poll of a v1 client does not bring ----------

  // A comic written with a time of the future hides what is written before that time: the poll
  // after it is answered with its time, and the next poll leaves out a wish written since then.
  lemma FutureRowHidesChange(env: Env, serverId: string) returns (write: Call, wish: Call)
    requires ValidEnv(env) && MeasuresJson(env) && IsIdentifier(serverId, 128)
    ensures Opened(env, map[]).Ok? && write.V1? && wish.V2? && wish.now == 2
    ensures var start := State(Opened(env, map[]).value, []);
            var polled, after := Run(env, serverId, start, [write]).core.comics, Run(env, serverId, start, [write, wish]).core.comics;
            forall first, next :: IsV1Answer(polled, 0, 1, first) && IsV1Answer(after, first.serverTime, 3, next) ==>
              IssueId(1) !in polled && IssueId(1) in after && after[IssueId(1)] !in next.rows
  {
    hide ValidEnv, MeasuresJson, IsIdentifier, Opened, GoodState, Step, AreWishes, ValidChange, ChangesBytes, NoCopiesOf,
         RefreshAll, Affected, V1Canonical, Record, LandsOn, IsV1Answer;
    EmptyStoreIsOpened(env);
    var start, c := EmptyStore(), PlainComic(5);
    var cs := Wishes(1, [0]);
    write, wish := V1([c]), V2(Writing("a", cs), false, 2, 2);
    OneCall(env, serverId, start, write);
    TwoCalls(env, serverId, start, write, wish);
    FirstWrite(env, serverId, start, 5);
    StepKeeps(env, serverId, start, write);
    var polled := Step(env, serverId, start, write);
    OneWishIsReady(env, polled, c);
    WritesWishes(env, serverId, polled, "a", cs, 2);
    var after := Step(env, serverId, polled, wish);
    WishIsWrittenAt(env, polled, after);
    forall first, next | IsV1Answer(polled.core.comics, 0, 1, first) && IsV1Answer(after.core.comics, first.serverTime, 3, next)
      ensures after.core.comics[IssueId(1)] !in next.rows
    {
      NotAfter(polled.core.comics, after.core.comics, c, first, next);
    }
  }

  lemma NotAfter(polled: Comics, after: Comics, c: Comic, first: V1Answer, next: V1Answer)
    requires polled == map[c.id := c] && c.updatedAt == 5 && IssueId(1) in after && after[IssueId(1)].updatedAt == 2
    requires IsV1Answer(polled, 0, 1, first) && IsV1Answer(after, first.serverTime, 3, next)
    ensures after[IssueId(1)] !in next.rows
  {
    hide IssueId;
    assert c.id in polled && polled[c.id].updatedAt <= first.serverTime;
  }

  lemma OneWishIsReady(env: Env, polled: State, c: Comic)
    requires MeasuresJson(env) && GoodState(env, polled) && c == PlainComic(5) && polled.core.comics == map[c.id := c]
    requires polled.core.log == [Group(V1Write(c), V1Canonical(env, c))]
    ensures var cs := Wishes(1, [0]);
            && AreWishes(cs) && |cs| == 1 && ValidChange(cs[0]) && cs[0].id == IssueId(1)
            && ChangesBytes(env, cs) <= MAX_V2_GROUP_BYTES && NoCopiesOf(polled.core.entities, cs)
            && (forall d :: d in cs ==> d.id !in polled.core.comics) && Affected(cs) == {IssueId(1)}
            && !InLog(polled.core.log, Text("a"))
  {
    hide MeasuresJson, GoodCore, GoodCache, AreWishes, ValidChange, ValidData, Encode, V1Canonical, NoCopiesOf, IssueId, Wish;
    var cs := Wishes(1, [0]);
    WishesAreWishes(1, [0]);
    WishIsFor(1, 0);
    assert cs[0] == Wish(1, 0) && cs == [cs[0]];
    IssueIdsDiffer(0, 1);
    OneWishFits(env, cs);
    OnlyItsCopies(env, polled, c, cs);
    WishAffects(cs);
  }

  lemma WishAffects(cs: seq<Change>)
    requires |cs| == 1 && cs[0] == Wish(1, 0)
    ensures Affected(cs) == {IssueId(1)}
  {
    hide Wish, IssueId;
    WishIsFor(1, 0);
    IssueIdFacts(1);
    assert ChangeIssue(cs[0]) == IssueId(1) && cs[0] in cs;
  }

  lemma OneWishFits(env: Env, cs: seq<Change>)
    requires MeasuresJson(env) && |cs| == 1 && cs[0] == Wish(1, 0)
    ensures ChangesBytes(env, cs) <= MAX_V2_GROUP_BYTES
  {
    hide MeasuresJson, Wish;
    WishBytes(env, 1, 0);
    assert cs[..0] == [];
    assert SumOfChanges(env, cs) == SumOfChanges(env, cs[..0]) + env.changeBytes(cs[0]);
  }

  lemma OneGroupReplayed(env: Env, st: State, g: Group)
    requires GoodState(env, st) && st.core.log == [g]
    ensures st.core.entities == Record(map[], g.changes, 1)
  {
    hide CopyAuthority, ValidEntities, GoodCache, ValidComics, Record, GoodReceipts;
    ReplayOfAppend([], g);
    assert [] + [g] == [g];
  }

  lemma OtherCopiesRecorded(recorded: seq<Change>, cs: seq<Change>)
    requires DistinctKeys(recorded) && forall d :: d in recorded && d.data.Copy? ==> d.data.copy.issueId == IssueId(0)
    requires |cs| == 1 && cs[0].id == IssueId(1)
    ensures NoCopiesOf(Record(map[], recorded, 1), cs)
  {
    hide IssueId, DistinctKeys, Record;
    RecordAt(map[], recorded, 1);
    IssueIdsDiffer(0, 1);
    var es := Record(map[], recorded, 1);
    forall k, c | k in es && es[k].data.Copy? && c in cs ensures es[k].data.copy.issueId != c.id {
      var d :| d in recorded && KeyOf(d) == k;
      assert es[KeyOf(d)] == Entity(d.op, d.data, 1);
    }
  }

  // The copies the bridge stores are those of the comic.
  lemma OnlyItsCopies(env: Env, polled: State, c: Comic, cs: seq<Change>)
    requires GoodState(env, polled) && c == PlainComic(5)
    requires polled.core.log == [Group(V1Write(c), V1Canonical(env, c))] && |cs| == 1 && cs[0] == Wish(1, 0)
    ensures NoCopiesOf(polled.core.entities, cs)
  {
    hide GoodState, V1Canonical, NoCopiesOf, Record, IssueId, PlainComic, DistinctKeys;
    OneGroupReplayed(env, polled, Group(V1Write(c), V1Canonical(env, c)));
    PlainCopies(env, c);
    V1CanonicalIsDistinct(env, c);
    WishIsFor(1, 0);
    OtherCopiesRecorded(V1Canonical(env, c), cs);
  }

  lemma V1CanonicalIsDistinct(env: Env, c: Comic)
    ensures DistinctKeys(V1Canonical(env, c))
  {
    hide Sanitize, CanonicalOf;
    CanonicalOfIsDistinct(Sanitize(env, c));
  }

  lemma PlainCopies(env: Env, c: Comic)
    requires c == PlainComic(5)
    ensures forall d :: d in V1Canonical(env, c) && d.data.Copy? ==> d.data.copy.issueId == IssueId(0)
  {
    hide IssueId, SanitizedSeries, SanitizedTitle, Truncate;
    IssueIdFacts(0);
  }

  lemma WishIsWrittenAt(env: Env, polled: State, after: State)
    requires GoodState(env, polled) && GoodState(env, after) && IssueId(1) !in polled.core.comics
    requires Affected(Wishes(1, [0])) == {IssueId(1)}
    requires after.core.entities == Record(polled.core.entities, Wishes(1, [0]), |polled.core.log| + 1)
    requires RefreshAll(after.core.entities, polled.core.comics, SortedTexts(Affected(Wishes(1, [0]))), 2) == Ok(after.core.comics)
    ensures IssueId(1) in after.core.comics && after.core.comics[IssueId(1)].updatedAt == 2
  {
    hide GoodHistory, CopyAuthority, GoodCache, Record, Wish, WishFor, Refresh, ValidEntities, ValidComics, IssueId,
         ShowsIssue, ShowsEntry, ShowsCopies, HasRow, Replay, GoodCore;
    var id, es := IssueId(1), after.core.entities;
    StateIsGood(env, polled);
    StateIsGood(env, after);
    GoodIsValid(env, polled.core);
    GoodIsValid(env, after.core);
    GoodIsWellKeyed(env, after.core);
    IssueIdFacts(1);
    SortedOfOne(id);
    assert [id][..|[id]| - 1] == [];
    assert RefreshAll(es, polled.core.comics, [id][..|[id]| - 1], 2) == Ok(polled.core.comics);
    WishHasRow(polled.core.entities, es, polled.core.comics, |polled.core.log| + 1);
    RefreshedRow(es, polled.core.comics, id, 2);
    assert MayBeNext(None, 2, 2);
  }

  lemma WishHasRow(before: Entities, es: Entities, comics: Comics, revision: nat)
    requires es == Record(before, Wishes(1, [0]), revision) && WellKeyed(es)
    ensures HasRow(es, comics, IssueId(1))
  {
    hide Record, IssueId, Plain;
    var cs := Wishes(1, [0]);
    assert cs[0] == Wish(1, 0) && cs == [cs[0]] && cs[0] in cs;
    RecordAt(before, cs, revision);
  }
}
