/** The size of a response in canonical JSON, and how many change groups fit in one page. */
module Paging {
  import opened Basics
  import opened Utf8
  import opened SyncTypes

  // ---------- JSON sizes ----------

  // ensure_ascii=False: only quotes, backslashes and control characters are escaped.
  function EscapedBytes(c: char): nat {
    if c == '"' || c == '\\' || c in {'\n', '\r', '\t', '\U{8}', '\U{C}'} then 2
    else if c as int < 0x20 then 6
    else |EncodeChar(c)|
  }

  function QuotedBytes(s: string): nat {
    if s == [] then 2 else EscapedBytes(s[0]) + QuotedBytes(s[1..])
  }

  // A hash takes 64 characters after its "v1:" or "bootstrap:" prefix.
  function IdBytes(id: MutationId): nat {
    match id
    case Text(text) => QuotedBytes(text)
    case V1Write(_) => 2 + 3 + 64
    case Bootstrap(_) => 2 + 10 + 64
  }

  function Commas(n: nat): nat {
    if n == 0 then 0 else n - 1
  }

  function SumOfChanges(env: Env, cs: seq<Change>): nat {
    if cs == [] then 0 else SumOfChanges(env, cs[..|cs| - 1]) + env.changeBytes(cs[|cs| - 1])
  }

  function ChangesBytes(env: Env, cs: seq<Change>): nat {
    2 + SumOfChanges(env, cs) + Commas(|cs|)
  }

  // {"changes":…,"mutation_id":…,"revision":…}
  function GroupBytes(env: Env, g: PageGroup): nat {
    11 + ChangesBytes(env, g.changes) + 15 + IdBytes(g.mutationId) + 12 + |Digits(g.revision)| + 1
  }

  function SumOfGroups(env: Env, gs: seq<PageGroup>): nat {
    if gs == [] then 0 else SumOfGroups(env, gs[..|gs| - 1]) + GroupBytes(env, gs[|gs| - 1])
  }

  // {"mutation_id":…,"revision":…,"status":"applied"}
  function AckBytes(a: Ack): nat {
    15 + IdBytes(a.mutationId) + 12 + |Digits(a.revision)| + 10 + (if a.status.Applied? then 9 else 11) + 1
  }

  function SumOfAcks(acks: seq<Ack>): nat {
    if acks == [] then 0 else SumOfAcks(acks[..|acks| - 1]) + AckBytes(acks[|acks| - 1])
  }

  // The eight members of a response in key order.
  function ResponseBytes(env: Env, serverId: string, r: Response): nat {
    20 + 2 + SumOfAcks(r.acks) + Commas(|r.acks|)
    + 17 + 2 + SumOfGroups(env, r.groups) + Commas(|r.groups|)
    + 12 + (if r.hasMore then 4 else 5)
    + 15 + |Digits(r.nextCursor)| + 13
    + 14 + QuotedBytes(r.requestId) + 13 + QuotedBytes(serverId)
    + 15 + |Digits(r.serverTime)| + 1
  }

  // ---------- One page ----------

  function PageOf(log: seq<Group>, cursor: nat, count: nat): (page: seq<PageGroup>)
    requires cursor + count <= |log|
    ensures |page| == count
  {
    seq(count, i requires 0 <= i < count =>
      PageGroup(cursor + i + 1, log[cursor + i].mutationId, log[cursor + i].changes))
  }

  // The response the size of a page is measured with: it always says that more follows.
  function Probe(base: Response, log: seq<Group>, count: nat): Response
    requires base.nextCursor + count <= |log|
  {
    base.(nextCursor := base.nextCursor + count, hasMore := true,
          groups := PageOf(log, base.nextCursor, count))
  }

  predicate Fits(env: Env, serverId: string, base: Response, log: seq<Group>, count: nat)
    requires base.nextCursor + count <= |log|
  {
    ResponseBytes(env, serverId, Probe(base, log, count)) <= MAX_V2_RESPONSE_BYTES
  }

  // How many groups go into the page: as many as fit, one after the other, up to the limit.
  function PageCount(env: Env, serverId: string, base: Response, log: seq<Group>, limit: nat, from: nat): (k: nat)
    requires base.nextCursor + from <= |log| && from <= limit
    ensures from <= k <= limit && base.nextCursor + k <= |log|
    decreases limit - from
  {
    if from == limit || base.nextCursor + from == |log| || !Fits(env, serverId, base, log, from + 1) then from
    else PageCount(env, serverId, base, log, limit, from + 1)
  }

  // Every page up to the count fits, and one group more would not, unless the limit or the end
  // of the log is reached.
  lemma {:induction false} PageCountIsExact(env: Env, serverId: string, base: Response, log: seq<Group>, limit: nat,
                                            from: nat)
    requires base.nextCursor + from <= |log| && from <= limit
    ensures var k := PageCount(env, serverId, base, log, limit, from);
            && (forall j :: from < j <= k ==> Fits(env, serverId, base, log, j))
            && (k < limit && base.nextCursor + k < |log| ==> !Fits(env, serverId, base, log, k + 1))
    decreases limit - from
  {
    hide Fits;
    if !(from == limit || base.nextCursor + from == |log| || !Fits(env, serverId, base, log, from + 1)) {
      PageCountIsExact(env, serverId, base, log, limit, from + 1);
    }
  }

  // The page and its cursor; a first group that does not fit is an error.
  function BuildResponse(env: Env, serverId: string, log: seq<Group>, req: Request, acks: seq<Ack>,
                         now: nat): Result<Response, SyncError>
    requires req.cursor <= |log| && req.limit >= 0
  {
    var base := Response(req.requestId, now, req.cursor, false, acks, []);
    var k := PageCount(env, serverId, base, log, req.limit, 0);
    if req.cursor < |log| && k == 0 then Err(ChangeGroupTooLarge)
    else
      var more := req.cursor + k < |log|;
      Ok(base.(nextCursor := if more then req.cursor + k else |log|, hasMore := more,
               groups := PageOf(log, req.cursor, k)))
  }

  // ---------- Bounds ----------

  lemma {:induction false} QuotedBytesBound(s: string)
    requires forall i :: 0 <= i < |s| ==> !IsControl(s[i])
    ensures QuotedBytes(s) <= 2 + 2 * Bytes(s)
  {
    if s != [] {
      QuotedBytesBound(s[1..]);
    }
  }

  lemma IdBytesBound(id: MutationId)
    requires ValidMutationId(id)
    ensures IdBytes(id) <= 258
  {
    if id.Text? {
      QuotedBytesBound(id.text);
    }
  }

  function Power10(k: nat): nat {
    if k == 0 then 1 else 10 * Power10(k - 1)
  }

  lemma {:induction false} DigitsBound(n: nat, k: nat)
    requires k >= 1 && n < Power10(k)
    ensures 1 <= |Digits(n)| <= k
  {
    if n >= 10 {
      DigitsBound(n / 10, k - 1);
    }
  }

  lemma Int64Digits(n: nat)
    requires n <= MAX_INT64
    ensures 1 <= |Digits(n)| <= 19
  {
    assert Power10(5) == 100_000;
    assert Power10(10) == 10_000_000_000;
    assert Power10(15) == 1_000_000_000_000_000;
    assert Power10(19) == 10_000_000_000_000_000_000;
    DigitsBound(n, 19);
  }

  lemma {:induction false} DigitsGrow(a: nat, b: nat)
    requires a <= b
    ensures |Digits(a)| <= |Digits(b)|
  {
    if a >= 10 {
      DigitsGrow(a / 10, b / 10);
    }
  }

  ghost predicate SmallAcks(acks: seq<Ack>) {
    && |acks| <= MAX_V2_MUTATIONS
    && forall i :: 0 <= i < |acks| ==> ValidMutationId(acks[i].mutationId) && acks[i].revision <= MAX_INT64
  }

  lemma {:induction false} AcksBound(acks: seq<Ack>)
    requires forall i :: 0 <= i < |acks| ==> ValidMutationId(acks[i].mutationId) && acks[i].revision <= MAX_INT64
    ensures SumOfAcks(acks) <= 326 * |acks|
  {
    if acks != [] {
      var a := acks[|acks| - 1];
      AcksBound(acks[..|acks| - 1]);
      IdBytesBound(a.mutationId);
      Int64Digits(a.revision);
    }
  }

  // What every stored group satisfies.
  predicate SmallGroup(env: Env, g: Group) {
    ChangesBytes(env, g.changes) <= MAX_V2_GROUP_BYTES && ValidMutationId(g.mutationId)
  }

  lemma FirstGroupFits(env: Env, serverId: string, base: Response, log: seq<Group>)
    requires base.nextCursor < |log| <= MAX_INT64 && SmallGroup(env, log[base.nextCursor])
    requires SmallAcks(base.acks) && IsIdentifier(base.requestId, 128) && IsIdentifier(serverId, 128)
    requires base.serverTime <= MAX_INT64
    ensures Fits(env, serverId, base, log, 1)
  {
    var probe := Probe(base, log, 1);
    var g := probe.groups[0];
    AcksBound(base.acks);
    IdBytesBound(g.mutationId);
    Int64Digits(g.revision);
    Int64Digits(base.serverTime);
    QuotedBytesBound(base.requestId);
    QuotedBytesBound(serverId);
    assert probe.groups == [g] && probe.groups[..0] == [];
    assert SumOfGroups(env, probe.groups) == GroupBytes(env, g);
  }

  lemma EmptyPageIsSmall(env: Env, serverId: string, r: Response)
    requires r.groups == [] && r.nextCursor <= MAX_INT64 && r.serverTime <= MAX_INT64
    requires SmallAcks(r.acks) && IsIdentifier(r.requestId, 128) && IsIdentifier(serverId, 128)
    ensures ResponseBytes(env, serverId, r) <= MAX_V2_RESPONSE_BYTES
  {
    AcksBound(r.acks);
    Int64Digits(r.serverTime);
    Int64Digits(r.nextCursor);
    QuotedBytesBound(r.requestId);
    QuotedBytesBound(serverId);
  }

  // Given the group cap and the identifier limits, a page never fails, a page that is not the
  // last advances the cursor, and only a last page may pass the response limit, by one byte.
  lemma PagesProgress(env: Env, serverId: string, log: seq<Group>, req: Request, acks: seq<Ack>, now: nat)
    requires IsIdentifier(req.requestId, 128) && req.limit >= 1 && req.cursor <= |log| <= MAX_INT64
    requires SmallAcks(acks) && IsIdentifier(serverId, 128) && now <= MAX_INT64
    requires forall i :: 0 <= i < |log| ==> SmallGroup(env, log[i])
    ensures var r := BuildResponse(env, serverId, log, req, acks, now);
            && r.Ok?
            && req.cursor <= r.value.nextCursor <= |log|
            && r.value.groups == PageOf(log, req.cursor, r.value.nextCursor - req.cursor)
            && (r.value.hasMore <==> r.value.nextCursor < |log|)
            && (r.value.hasMore ==> r.value.nextCursor > req.cursor)
            && ResponseBytes(env, serverId, r.value)
                 <= MAX_V2_RESPONSE_BYTES + (if r.value.hasMore then 0 else 1)
  {
    hide ResponseBytes, SmallGroup, SmallAcks, IsIdentifier, PageOf, PageCount;
    var base := Response(req.requestId, now, req.cursor, false, acks, []);
    if req.cursor < |log| {
      FirstGroupFits(env, serverId, base, log);
      PageCountIsExact(env, serverId, base, log, req.limit, 0);
      var k := PageCount(env, serverId, base, log, req.limit, 0);
      assert Fits(env, serverId, base, log, k);
      var r := BuildResponse(env, serverId, log, req, acks, now).value;
      MoreFlagBytes(env, serverId, r);
      assert r.(hasMore := true) == Probe(base, log, k);
    } else {
      NoPage(log, req.cursor);
      var r := BuildResponse(env, serverId, log, req, acks, now).value;
      EmptyPageIsSmall(env, serverId, r);
    }
  }

  lemma NoPage(log: seq<Group>, cursor: nat)
    requires cursor <= |log|
    ensures PageOf(log, cursor, 0) == []
  {
  }

  // "true" is one byte shorter than "false".
  lemma MoreFlagBytes(env: Env, serverId: string, r: Response)
    ensures ResponseBytes(env, serverId, r)
            == ResponseBytes(env, serverId, r.(hasMore := true)) + if r.hasMore then 0 else 1
  {
  }

  // ---------- Which last page passes the limit ----------

  lemma ProbeGrows(env: Env, serverId: string, base: Response, log: seq<Group>, j: nat)
    requires base.nextCursor + j < |log|
    ensures ResponseBytes(env, serverId, Probe(base, log, j)) <= ResponseBytes(env, serverId, Probe(base, log, j + 1))
  {
    hide QuotedBytes, Digits, GroupBytes, SumOfAcks;
    var page := PageOf(log, base.nextCursor, j + 1);
    assert page[..j] == PageOf(log, base.nextCursor, j);
    DigitsGrow(base.nextCursor + j, base.nextCursor + j + 1);
  }

  // Of the pages of one request, every one shorter than a page that fits does so too.
  lemma {:induction false} FitsBelow(env: Env, serverId: string, base: Response, log: seq<Group>, j: nat, k: nat)
    requires j <= k && base.nextCursor + k <= |log| && Fits(env, serverId, base, log, k)
    ensures Fits(env, serverId, base, log, j)
    decreases k
  {
    hide ResponseBytes, Probe;
    if j < k {
      ProbeGrows(env, serverId, base, log, k - 1);
      FitsBelow(env, serverId, base, log, j, k - 1);
    }
  }

  // The answer that would hold the whole rest of the log, as its size is measured.
  function WholeRest(log: seq<Group>, req: Request, acks: seq<Ack>, now: nat): Response
    requires req.cursor <= |log|
  {
    Probe(Response(req.requestId, now, req.cursor, false, acks, []), log, |log| - req.cursor)
  }

  // An answer passes the response limit exactly when the rest of the log is no longer than the
  // page limit and its measure fills the response limit to the byte: it is then sent as a last
  // page, and says false where true was measured.
  lemma AnswerPassesLimitIff(env: Env, serverId: string, log: seq<Group>, req: Request, acks: seq<Ack>, now: nat)
    requires IsIdentifier(req.requestId, 128) && req.limit >= 1 && req.cursor <= |log| <= MAX_INT64
    requires SmallAcks(acks) && IsIdentifier(serverId, 128) && now <= MAX_INT64
    requires forall i :: 0 <= i < |log| ==> SmallGroup(env, log[i])
    ensures var r := BuildResponse(env, serverId, log, req, acks, now);
            && r.Ok?
            && (ResponseBytes(env, serverId, r.value) > MAX_V2_RESPONSE_BYTES <==>
                  && 0 < |log| - req.cursor <= req.limit
                  && ResponseBytes(env, serverId, WholeRest(log, req, acks, now)) == MAX_V2_RESPONSE_BYTES)
            && (ResponseBytes(env, serverId, r.value) > MAX_V2_RESPONSE_BYTES ==>
                  && !r.value.hasMore && r.value.groups == PageOf(log, req.cursor, |log| - req.cursor)
                  && ResponseBytes(env, serverId, r.value) == MAX_V2_RESPONSE_BYTES + 1)
  {
    hide ResponseBytes, SmallGroup, SmallAcks, IsIdentifier, PageOf, PageCount;
    var base, rest := Response(req.requestId, now, req.cursor, false, acks, []), |log| - req.cursor;
    PagesProgress(env, serverId, log, req, acks, now);
    PageCountIsExact(env, serverId, base, log, req.limit, 0);
    var r, k := BuildResponse(env, serverId, log, req, acks, now).value, PageCount(env, serverId, base, log, req.limit, 0);
    if rest == 0 {
      NoPage(log, req.cursor);
      EmptyPageIsSmall(env, serverId, r);
    } else {
      if rest <= req.limit && Fits(env, serverId, base, log, rest) && k < rest {
        FitsBelow(env, serverId, base, log, k + 1, rest);
      }
      MoreFlagBytes(env, serverId, r);
      assert r.(hasMore := true) == Probe(base, log, k);
    }
  }

  // ---------- Changes in canonical JSON ----------

  function BoolBytes(b: bool): nat {
    if b then 4 else 5
  }

  function IntBytes(n: int): nat {
    if n < 0 then 1 + |Digits(-n)| else |Digits(n)|
  }

  function NullableBytes(n: Option<int>): nat {
    if n.None? then 4 else IntBytes(n.value)
  }

  // A floating-point number takes at most 24 characters.
  function PriceBytes(p: Option<Number>): nat {
    if p.None? then 4 else 24
  }

  // {"edition":…,"id":…,"number":…,"origin":…,"publisher":…,"series":…,"title":…,"year":…}
  function HintBytes(hint: Option<Hint>, issue: string): nat {
    if hint.None? then 4
    else
      var h := hint.value;
      78 + QuotedBytes(h.edition) + QuotedBytes(issue) + IntBytes(h.number) + (if h.origin.Bundled? then 9 else 8)
      + QuotedBytes(h.publisher) + QuotedBytes(h.series) + QuotedBytes(h.title) + NullableBytes(h.year)
  }

  // The members of each kind of data, in any order.
  function DataBytes(data: Data): nat {
    match data
    case Issue(d) =>
      107 + QuotedBytes(d.artist) + BoolBytes(d.deleted) + QuotedBytes(d.edition) + IntBytes(d.number)
      + NullableBytes(d.pageCount) + QuotedBytes(d.publisher) + QuotedBytes(d.series) + QuotedBytes(d.title)
      + QuotedBytes(d.writer) + NullableBytes(d.year)
    case Entry(d) =>
      120 + BoolBytes(d.deleted) + BoolBytes(d.isDuplicate) + BoolBytes(d.isRead) + BoolBytes(d.isWanted)
      + HintBytes(d.hint, d.issueId) + QuotedBytes(d.issueId) + QuotedBytes(d.notes) + BoolBytes(d.owned)
      + IntBytes(d.rating) + IntBytes(d.updatedAt)
    case Copy(d) =>
      142 + BoolBytes(d.active) + QuotedBytes(d.conditionGrade) + BoolBytes(d.deleted) + PriceBytes(d.estimatedValue)
      + HintBytes(d.hint, d.issueId) + QuotedBytes(d.issueId) + QuotedBytes(d.loanedTo) + IntBytes(d.ordinal)
      + PriceBytes(d.purchasePrice) + IntBytes(d.updatedAt)
    case Barcode(d) =>
      52 + BoolBytes(d.deleted) + HintBytes(d.hint, d.issueId) + QuotedBytes(d.issueId) + IntBytes(d.updatedAt)
  }

  function KindBytes(data: Data): nat {
    match data
    case Issue(_) => 14
    case Entry(_) => 18
    case Copy(_) => 6
    case Barcode(_) => 17
  }

  // {"data":…,"entity_id":…,"entity_type":…,"operation":"upsert"}
  function JsonBytes(c: Change): nat {
    58 + DataBytes(c.data) + QuotedBytes(c.id) + KindBytes(c.data)
  }

  // Nothing of the change is left open: it has no price, and a hint where it may have one.
  predicate IsExplicit(c: Change) {
    && (c.data.Issue? || HintOf(c.data).Some?)
    && (c.data.Copy? ==> c.data.copy.purchasePrice.None? && c.data.copy.estimatedValue.None?)
  }

  // Changes are measured in canonical JSON. A price may be shorter, and a change of the bridge
  // has no hint where one of a client has a null.
  ghost predicate MeasuresJson(env: Env) {
    forall c :: env.changeBytes(c) <= JsonBytes(c) && (IsExplicit(c) ==> env.changeBytes(c) == JsonBytes(c))
  }

  lemma {:induction false} QuotedBytesAtMost(s: string)
    ensures 2 <= QuotedBytes(s) <= 2 + 6 * Bytes(s)
  {
    if s != [] {
      QuotedBytesAtMost(s[1..]);
    }
  }

  lemma IntBytesBound(n: int)
    requires 0 <= n <= MAX_INT64
    ensures IntBytes(n) <= 19
  {
    Int64Digits(n);
  }

  lemma NullableBytesBound(n: Option<int>)
    requires InRange(n, 0, MAX_INT64)
    ensures NullableBytes(n) <= 19
  {
    if n.Some? {
      IntBytesBound(n.value);
    }
  }

  lemma HintBytesBound(h: Option<Hint>, issue: string)
    requires ValidHint(h) && Bytes(issue) <= 128
    ensures HintBytes(h, issue) <= 10_000
  {
    hide QuotedBytes, IntBytes, Encode;
    if h.Some? {
      QuotedBytesAtMost(h.value.edition);
      QuotedBytesAtMost(issue);
      QuotedBytesAtMost(h.value.publisher);
      QuotedBytesAtMost(h.value.series);
      QuotedBytesAtMost(h.value.title);
      IntBytesBound(h.value.number);
      NullableBytesBound(h.value.year);
    }
  }

  lemma GradeBytes(grade: string)
    requires grade in CONDITION_GRADES
    ensures Bytes(grade) <= 8
  {
    assert |"VF"| == 2;
    BytesAtMostFour(grade);
  }

  // No change a client can send takes more than 100 thousand bytes.
  lemma DataBytesBound(data: Data)
    requires ValidData(data)
    ensures DataBytes(data) <= 90_000
  {
    hide QuotedBytes, IntBytes, HintBytes, Encode, CONDITION_GRADES, ValidHint;
    match data
    case Issue(d) =>
      QuotedBytesAtMost(d.artist);
      QuotedBytesAtMost(d.edition);
      QuotedBytesAtMost(d.publisher);
      QuotedBytesAtMost(d.series);
      QuotedBytesAtMost(d.title);
      QuotedBytesAtMost(d.writer);
      IntBytesBound(d.number);
      NullableBytesBound(d.pageCount);
      NullableBytesBound(d.year);
    case Entry(d) =>
      HintBytesBound(d.hint, d.issueId);
      QuotedBytesAtMost(d.issueId);
      QuotedBytesAtMost(d.notes);
      IntBytesBound(d.rating);
      IntBytesBound(d.updatedAt);
    case Copy(d) =>
      HintBytesBound(d.hint, d.issueId);
      GradeBytes(d.conditionGrade);
      QuotedBytesAtMost(d.conditionGrade);
      QuotedBytesAtMost(d.issueId);
      QuotedBytesAtMost(d.loanedTo);
      IntBytesBound(d.ordinal);
      IntBytesBound(d.updatedAt);
    case Barcode(d) =>
      HintBytesBound(d.hint, d.issueId);
      QuotedBytesAtMost(d.issueId);
      IntBytesBound(d.updatedAt);
  }

  lemma JsonBytesBound(c: Change)
    requires ValidData(c.data) && Bytes(c.id) <= 512
    ensures JsonBytes(c) <= 100_000
  {
    hide DataBytes, QuotedBytes, Encode, ValidData;
    DataBytesBound(c.data);
    QuotedBytesAtMost(c.id);
  }

  // ---------- Lists of changes ----------

  lemma {:induction false} SumAtMost(env: Env, cs: seq<Change>, most: nat)
    requires forall c :: c in cs ==> env.changeBytes(c) <= most
    ensures SumOfChanges(env, cs) <= |cs| * most
  {
    if cs != [] {
      var init, last := cs[..|cs| - 1], cs[|cs| - 1];
      assert last in cs && forall c :: c in init ==> c in cs;
      SumAtMost(env, init, most);
      assert |cs| * most == |init| * most + most;
    }
  }

  lemma {:induction false} SumOfEqual(env: Env, cs: seq<Change>, each: nat)
    requires forall c :: c in cs ==> env.changeBytes(c) == each
    ensures SumOfChanges(env, cs) == |cs| * each
  {
    if cs != [] {
      var init, last := cs[..|cs| - 1], cs[|cs| - 1];
      assert last in cs && forall c :: c in init ==> c in cs;
      SumOfEqual(env, init, each);
      assert |cs| * each == |init| * each + each;
    }
  }

  // Fifty changes of any size a client can send fit a group.
  lemma FewChangesFit(env: Env, cs: seq<Change>)
    requires MeasuresJson(env) && |cs| <= 50
    requires forall c :: c in cs ==> ValidData(c.data) && Bytes(c.id) <= 512
    ensures ChangesBytes(env, cs) <= MAX_V2_GROUP_BYTES
  {
    hide JsonBytes, ValidData, Encode;
    forall c | c in cs ensures env.changeBytes(c) <= 100_000 {
      JsonBytesBound(c);
    }
    SumAtMost(env, cs, 100_000);
  }
}
