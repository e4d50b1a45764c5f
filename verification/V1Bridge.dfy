/** How a flat v1 comic becomes v2 changes, which of them a v2 client could upload again, and what
    the projection makes of them. */
module V1Bridge {
  import opened Basics
  import opened Utf8
  import opened SyncTypes
  import opened Canonical
  import opened Authority
  import opened Projection

  predicate IsHexDigest(d: string) {
    |d| == 64 && forall i :: 0 <= i < |d| ==> '0' <= d[i] <= '9' || 'a' <= d[i] <= 'f'
  }

  ghost predicate ValidEnv(env: Env) {
    forall s :: IsHexDigest(env.digest(s))
  }

  // ---------- _sanitize_v1_for_v2 ----------

  function SanitizedId(env: Env, raw: string): string {
    if IsIdentifier(raw, 128) then raw else "legacy-" + env.digest(raw)
  }

  const LEGACY_SERIES: string := "Legacy comic"

  function SanitizedSeries(series: string): string {
    var s := Truncate(Strip(series), 200);
    if s == [] then LEGACY_SERIES else s
  }

  function SanitizedTitle(title: string, series: string, number: nat): string {
    var t := Truncate(Strip(title), 500);
    if t == [] then Truncate(series + " #" + Digits(number), 500) else t
  }

  function Within(value: Option<int>, most: int): Option<int> {
    if value.Some? && 0 <= value.value <= most then value else None
  }

  function SanitizedPrice(p: Option<Number>): Option<Number> {
    if IsPrice(p) then p else None
  }

  function Sanitize(env: Env, c: Comic): Comic {
    var number := Max(0, Min(1_000_000_000, c.number));
    var series := SanitizedSeries(c.series);
    c.(id := SanitizedId(env, c.id), series := series, edition := Truncate(c.edition, 200),
       number := number, title := SanitizedTitle(c.title, series, number),
       publisher := Truncate(c.publisher, 200), year := Within(c.year, 3000),
       pageCount := Within(c.pageCount, 100_000), writer := Truncate(c.writer, 300),
       artist := Truncate(c.artist, 300), notes := Truncate(c.notes, 10_000),
       loanedTo := Truncate(c.loanedTo, 300), purchasePrice := SanitizedPrice(c.purchasePrice),
       estimatedValue := SanitizedPrice(c.estimatedValue),
       updatedAt := Max(0, Min(MAX_INT64, c.updatedAt)))
  }

  // ---------- _v1_changes ----------

  function IssueOfComic(c: Comic): Change {
    Change(c.id, Upsert, Issue(IssueData(c.series, c.edition, c.number, c.title, c.publisher, c.year,
                                         c.pageCount, c.writer, c.artist, false)))
  }

  function OpOf(deleted: bool): Operation {
    if deleted then Delete else Upsert
  }

  function EntryOfComic(c: Comic): Change {
    Change(c.id, OpOf(c.deleted),
           Entry(EntryData(c.id, c.owned, !c.owned && !c.deleted, c.isRead, c.isDuplicate, c.rating,
                           c.notes, c.deleted, c.updatedAt, None)))
  }

  function PrimaryOfComic(c: Comic): Change {
    Change(c.id + ":copy:0", OpOf(c.deleted),
           Copy(CopyData(c.id, 0, c.owned && !c.deleted, c.conditionGrade, c.purchasePrice,
                         c.estimatedValue, c.loanedTo, c.deleted, c.updatedAt, None)))
  }

  function SecondaryOfComic(c: Comic): Change {
    var duplicate := c.isDuplicate && !c.deleted;
    Change(c.id + ":copy:1", OpOf(!duplicate),
           Copy(CopyData(c.id, 1, duplicate && c.owned, "", None, None, "", !duplicate, c.updatedAt, None)))
  }

  // The changes of a comic that is already sanitised.
  function ChangesOf(c: Comic): seq<Change> {
    [IssueOfComic(c), EntryOfComic(c), PrimaryOfComic(c), SecondaryOfComic(c)]
  }

  function V1Changes(env: Env, comic: Comic): seq<Change> {
    ChangesOf(Sanitize(env, comic))
  }

  // ---------- Stripped and truncated texts ----------

  lemma {:induction false} StripLeftKeeps(s: string)
    ensures |StripLeft(s)| <= |s|
    ensures StripLeft(s) != [] ==> !IsSpace(StripLeft(s)[0])
    ensures (s == [] || !IsSpace(s[0])) <==> StripLeft(s) == s
  {
    if s != [] && IsSpace(s[0]) {
      StripLeftKeeps(s[1..]);
    }
  }

  lemma {:induction false} StripRightKeeps(s: string)
    ensures |StripRight(s)| <= |s| && StripRight(s) == s[..|StripRight(s)|]
    ensures (s == [] || !IsSpace(s[|s| - 1])) <==> StripRight(s) == s
    ensures s != [] && !IsSpace(s[0]) ==> StripRight(s) != []
  {
    if s != [] && IsSpace(s[|s| - 1]) {
      StripRightKeeps(s[..|s| - 1]);
    }
  }

  // A text is trimmed exactly when neither end is white space.
  lemma StrippedEnds(s: string)
    ensures Strip(s) == s <==> s == [] || (!IsSpace(s[0]) && !IsSpace(s[|s| - 1]))
    ensures Strip(s) != [] ==> !IsSpace(Strip(s)[0])
    ensures s != [] && !IsSpace(s[0]) ==> Strip(s) != []
  {
    StripLeftKeeps(s);
    StripRightKeeps(StripLeft(s));
  }

  lemma TruncatedText(s: string, limit: nat)
    requires limit >= 4
    ensures IsText(Truncate(s, limit), limit)
    ensures s != [] ==> Truncate(s, limit) != [] && Truncate(s, limit)[0] == s[0]
  {
    var k := TruncateIsLongestPrefix(s, limit);
    if s != [] && k == 0 {
      BytesAtMostFour(s[..1]);
    }
  }

  lemma FirstVisibleIsNonEmpty(s: string, limit: nat)
    requires s != [] && !IsSpace(s[0]) && IsText(s, limit)
    ensures IsNonEmptyText(s, limit)
  {
    StrippedEnds(s);
  }

  lemma LegacySeriesIsValid()
    ensures LEGACY_SERIES != [] && !IsSpace(LEGACY_SERIES[0]) && IsText(LEGACY_SERIES, 200)
  {
    assert LEGACY_SERIES[0] == 'L' && |LEGACY_SERIES| == 12;
    BytesAtMostFour(LEGACY_SERIES);
  }

  lemma SanitizedSeriesIsValid(series: string)
    ensures var s := SanitizedSeries(series); IsNonEmptyText(s, 200) && !IsSpace(s[0])
  {
    StrippedEnds(series);
    TruncatedText(Strip(series), 200);
    LegacySeriesIsValid();
    FirstVisibleIsNonEmpty(SanitizedSeries(series), 200);
  }

  lemma SanitizedTitleIsValid(title: string, series: string, number: nat)
    requires series != [] && !IsSpace(series[0])
    ensures IsNonEmptyText(SanitizedTitle(title, series, number), 500)
  {
    var built := series + " #" + Digits(number);
    assert built[0] == series[0];
    TruncatedText(built, 500);
    StrippedEnds(title);
    TruncatedText(Strip(title), 500);
    FirstVisibleIsNonEmpty(SanitizedTitle(title, series, number), 500);
  }

  // ---------- What sanitising keeps ----------

  // The text is cut between characters, and no sooner than the limit asks.
  ghost predicate IsLongestPrefix(cut: string, text: string, limit: nat) {
    && cut <= text && Bytes(cut) <= limit
    && forall k :: |cut| < k <= |text| ==> Bytes(text[..k]) > limit
  }

  // The text without the white space at its ends.
  ghost predicate IsTrimmed(trimmed: string, text: string) {
    exists i, j :: IsTrimmedAt(trimmed, text, i, j)
  }

  ghost predicate IsTrimmedAt(trimmed: string, text: string, i: int, j: int) {
    && 0 <= i <= j <= |text| && trimmed == text[i..j]
    && (forall k :: 0 <= k < i || j <= k < |text| ==> IsSpace(text[k]))
    && (trimmed != [] ==> !IsSpace(trimmed[0]) && !IsSpace(trimmed[|trimmed| - 1]))
  }

  // Trimmed and cut, or another text when nothing is left.
  ghost predicate IsTrimmedPrefix(result: string, text: string, limit: nat, otherwise: string) {
    exists t :: IsTrimmed(t, text) && if t == [] then result == otherwise else IsLongestPrefix(result, t, limit)
  }

  // No number between the bounds is nearer.
  ghost predicate IsNearest(result: int, n: int, least: int, most: int) {
    && least <= result <= most
    && forall m :: least <= m <= most ==> Distance(result, n) <= Distance(m, n)
  }

  function Distance(a: int, b: int): nat {
    if a < b then b - a else a - b
  }

  function WhenInRange(n: Option<int>, most: int): Option<int> {
    if n.Some? && 0 <= n.value <= most then n else None
  }

  lemma TruncateIsPrefix(text: string, limit: nat)
    ensures IsLongestPrefix(Truncate(text, limit), text, limit)
  {
    hide Truncate, Encode;
    var k := TruncateIsLongestPrefix(text, limit);
    assert |text[..k]| == k;
  }

  lemma {:induction false} StripLeftAt(s: string) returns (i: nat)
    ensures i <= |s| && StripLeft(s) == s[i..]
    ensures forall k :: 0 <= k < i ==> IsSpace(s[k])
    ensures i < |s| ==> !IsSpace(s[i])
  {
    hide IsSpace;
    i := 0;
    if s != [] && IsSpace(s[0]) {
      var n := StripLeftAt(s[1..]);
      i := n + 1;
      forall k | 0 <= k < i ensures IsSpace(s[k]) {
        assert k > 0 ==> s[k] == s[1..][k - 1];
      }
    }
  }

  lemma {:induction false} StripRightAt(s: string) returns (j: nat)
    ensures j <= |s| && StripRight(s) == s[..j]
    ensures forall k :: j <= k < |s| ==> IsSpace(s[k])
    ensures j > 0 ==> !IsSpace(s[j - 1])
  {
    hide IsSpace;
    j := |s|;
    if s != [] && IsSpace(s[|s| - 1]) {
      var init := s[..|s| - 1];
      j := StripRightAt(init);
      assert init[..j] == s[..j];
      forall k | j <= k < |s| ensures IsSpace(s[k]) {
        assert k < |init| ==> s[k] == init[k];
      }
    } else {
      assert s[..j] == s;
    }
  }

  lemma StripTrims(s: string)
    ensures IsTrimmed(Strip(s), s)
  {
    hide StripLeft, StripRight, IsSpace;
    var i := StripLeftAt(s);
    var rest := s[i..];
    var j := StripRightAt(rest);
    assert rest[..j] == s[i..i + j];
    forall k | 0 <= k < i || i + j <= k < |s| ensures IsSpace(s[k]) {
      assert k >= i ==> s[k] == rest[k - i];
    }
    assert IsTrimmedAt(Strip(s), s, i, i + j);
  }

  // What sanitising makes of the texts of any comic: they are cut, and series and title trimmed
  // first; a series that is empty gets a name, and a title that is, the series and the number.
  lemma SanitizedTexts(env: Env, c: Comic)
    ensures var s := Sanitize(env, c);
            && s.id == (if IsIdentifier(c.id, 128) then c.id else "legacy-" + env.digest(c.id))
            && IsTrimmedPrefix(s.series, c.series, 200, "Legacy comic")
            && exists otherwise :: IsLongestPrefix(otherwise, s.series + " #" + Digits(s.number), 500)
                 && IsTrimmedPrefix(s.title, c.title, 500, otherwise)
    ensures var s := Sanitize(env, c);
            && IsLongestPrefix(s.edition, c.edition, 200) && IsLongestPrefix(s.publisher, c.publisher, 200)
            && IsLongestPrefix(s.writer, c.writer, 300) && IsLongestPrefix(s.artist, c.artist, 300)
            && IsLongestPrefix(s.notes, c.notes, 10_000) && IsLongestPrefix(s.loanedTo, c.loanedTo, 300)
  {
    hide IsLongestPrefix, IsTrimmed, Truncate, Strip, IsIdentifier, Digits;
    var s := Sanitize(env, c);
    SeriesIsTrimmed(c.series);
    TitleIsTrimmed(c.title, s.series, s.number);
    TruncateIsPrefix(s.series + " #" + Digits(s.number), 500);
    TruncateIsPrefix(c.edition, 200);
    TruncateIsPrefix(c.publisher, 200);
    TruncateIsPrefix(c.writer, 300);
    TruncateIsPrefix(c.artist, 300);
    TruncateIsPrefix(c.notes, 10_000);
    TruncateIsPrefix(c.loanedTo, 300);
  }

  lemma SeriesIsTrimmed(series: string)
    ensures IsTrimmedPrefix(SanitizedSeries(series), series, 200, "Legacy comic")
  {
    hide IsLongestPrefix, IsTrimmed, Truncate, Strip;
    StripTrims(series);
    TruncateIsPrefix(Strip(series), 200);
    CutIsEmptyIff(Strip(series), 200);
  }

  lemma TitleIsTrimmed(title: string, series: string, number: nat)
    ensures IsTrimmedPrefix(SanitizedTitle(title, series, number), title, 500, Truncate(series + " #" + Digits(number), 500))
  {
    hide IsLongestPrefix, IsTrimmed, Truncate, Strip, Digits;
    StripTrims(title);
    TruncateIsPrefix(Strip(title), 500);
    CutIsEmptyIff(Strip(title), 500);
  }

  lemma CutIsEmptyIff(s: string, limit: nat)
    requires limit >= 4
    ensures Truncate(s, limit) == [] <==> s == []
  {
    hide Truncate, Encode;
    TruncatedText(s, limit);
    TruncateIsPrefix(s, limit);
  }

  // Numbers are moved to the nearest one v2 allows, optional ones and prices are dropped when out
  // of range, and nothing else is touched.
  lemma SanitizedFields(env: Env, c: Comic)
    ensures var s := Sanitize(env, c);
            && IsNearest(s.number, c.number, 0, 1_000_000_000) && IsNearest(s.updatedAt, c.updatedAt, 0, MAX_INT64)
            && s.year == WhenInRange(c.year, 3000) && s.pageCount == WhenInRange(c.pageCount, 100_000)
            && s.purchasePrice == (if IsPrice(c.purchasePrice) then c.purchasePrice else None)
            && s.estimatedValue == (if IsPrice(c.estimatedValue) then c.estimatedValue else None)
            && (s.owned, s.isRead, s.isDuplicate, s.deleted) == (c.owned, c.isRead, c.isDuplicate, c.deleted)
            && (s.conditionGrade, s.rating, s.coverAsset) == (c.conditionGrade, c.rating, c.coverAsset)
  {
    hide Truncate, SanitizedSeries, SanitizedTitle, SanitizedId;
  }

  // A comic within the v2 limits, its series and title trimmed.
  predicate WithinV2Limits(c: Comic) {
    && IsIdentifier(c.id, 128)
    && c.series != [] && !IsSpace(c.series[0]) && !IsSpace(c.series[|c.series| - 1]) && Bytes(c.series) <= 200
    && c.title != [] && !IsSpace(c.title[0]) && !IsSpace(c.title[|c.title| - 1]) && Bytes(c.title) <= 500
    && Bytes(c.edition) <= 200 && Bytes(c.publisher) <= 200 && Bytes(c.writer) <= 300 && Bytes(c.artist) <= 300
    && Bytes(c.notes) <= 10_000 && Bytes(c.loanedTo) <= 300
    && 0 <= c.number <= 1_000_000_000 && 0 <= c.updatedAt <= MAX_INT64
    && InRange(c.year, 0, 3000) && InRange(c.pageCount, 0, 100_000)
    && IsPrice(c.purchasePrice) && IsPrice(c.estimatedValue)
  }

  // Such a comic is left exactly as it is.
  lemma WithinLimitsIsKept(env: Env, c: Comic)
    requires WithinV2Limits(c)
    ensures Sanitize(env, c) == c
  {
    hide Encode, Strip, IsSpace, IsIdentifier, DecodeIgnoring;
    StrippedEnds(c.series);
    StrippedEnds(c.title);
  }

  // ---------- Which changes a client could upload again ----------

  lemma SanitizedIdIsIdentifier(env: Env, raw: string)
    requires ValidEnv(env)
    ensures IsIdentifier(SanitizedId(env, raw), 128)
  {
    var d, id := env.digest(raw), SanitizedId(env, raw);
    if !IsIdentifier(raw, 128) {
      assert IsHexDigest(d) && |id| == 71;
      assert id[0] == 'l' && id[|id| - 1] == d[63];
      AsciiBytes(id);
      StrippedEnds(id);
    }
  }

  lemma SuffixedIdentifier(id: string, suffix: string)
    requires IsIdentifier(id, 128) && suffix in {":copy:0", ":copy:1"}
    ensures IsIdentifier(id + suffix, 128) <==> Bytes(id) <= 121
  {
    hide Encode, Strip;
    PlainSuffix(suffix);
    BytesOfConcat(id, suffix);
    StrippedEnds(id);
    StrippedEnds(id + suffix);
    var whole := id + suffix;
    assert forall i :: 0 <= i < |whole| ==> whole[i] == if i < |id| then id[i] else suffix[i - |id|];
  }

  lemma PlainSuffix(suffix: string)
    requires suffix in {":copy:0", ":copy:1"}
    ensures |suffix| == 7 && Bytes(suffix) == 7 && !IsSpace(suffix[6])
    ensures forall i :: 0 <= i < 7 ==> !IsControl(suffix[i])
  {
    assert |suffix| == 7 && suffix[6] in {'0', '1'};
    assert forall i :: 0 <= i < 7 ==> !IsControl(suffix[i]) && suffix[i] < '\U{80}';
    AsciiBytes(suffix);
  }

  // What the sanitised fields satisfy.
  predicate IsSanitized(c: Comic) {
    && IsIdentifier(c.id, 128) && IsNonEmptyText(c.series, 200) && IsText(c.edition, 200)
    && 0 <= c.number <= 1_000_000_000 && IsNonEmptyText(c.title, 500) && IsText(c.publisher, 200)
    && InRange(c.year, 0, 3000) && InRange(c.pageCount, 0, 100_000) && IsText(c.writer, 300)
    && IsText(c.artist, 300) && IsText(c.notes, 10_000) && IsText(c.loanedTo, 300)
    && IsPrice(c.purchasePrice) && IsPrice(c.estimatedValue) && 0 <= c.updatedAt <= MAX_INT64
    && 0 <= c.rating <= 5 && c.conditionGrade in CONDITION_GRADES
  }

  lemma SanitizedIsSanitized(env: Env, comic: Comic)
    requires ValidEnv(env) && ValidComic(comic)
    ensures IsSanitized(Sanitize(env, comic))
  {
    SanitizedIdIsIdentifier(env, comic.id);
    SanitizedSeriesIsValid(comic.series);
    SanitizedTitleIsValid(comic.title, SanitizedSeries(comic.series), Max(0, Min(1_000_000_000, comic.number)));
    TruncatedText(comic.edition, 200);
    TruncatedText(comic.publisher, 200);
    TruncatedText(comic.writer, 300);
    TruncatedText(comic.artist, 300);
    TruncatedText(comic.notes, 10_000);
    TruncatedText(comic.loanedTo, 300);
  }

  lemma ChangesOfSanitized(c: Comic)
    requires IsSanitized(c)
    ensures forall d :: d in ChangesOf(c) ==> ValidBody(d)
  {
    hide IsSanitized, ValidBody, IssueOfComic, EntryOfComic, PrimaryOfComic, SecondaryOfComic;
    SanitizedIssueIsValid(c);
    SanitizedEntryIsValid(c);
    SanitizedCopiesAreValid(c);
  }

  lemma SanitizedIssueIsValid(c: Comic)
    requires IsSanitized(c)
    ensures ValidBody(IssueOfComic(c))
  {
    hide IsIdentifier, IsNonEmptyText, IsText, CONDITION_GRADES;
  }

  lemma SanitizedEntryIsValid(c: Comic)
    requires IsSanitized(c)
    ensures ValidBody(EntryOfComic(c))
  {
    hide IsIdentifier, IsNonEmptyText, IsText, CONDITION_GRADES;
  }

  lemma SanitizedCopiesAreValid(c: Comic)
    requires IsSanitized(c)
    ensures ValidBody(PrimaryOfComic(c)) && ValidBody(SecondaryOfComic(c))
  {
    hide IsIdentifier, IsNonEmptyText;
    assert Bytes("") == 0 && "" in CONDITION_GRADES;
  }

  lemma SanitizedBodiesAreValid(env: Env, comic: Comic)
    requires ValidEnv(env) && ValidComic(comic)
    ensures forall c :: c in V1Changes(env, comic) ==> ValidBody(c)
  {
    SanitizedIsSanitized(env, comic);
    ChangesOfSanitized(Sanitize(env, comic));
  }

  lemma SanitizedHasId(c: Comic)
    requires IsSanitized(c)
    ensures IsIdentifier(c.id, 128)
  {
    hide IsIdentifier, IsNonEmptyText, IsText, CONDITION_GRADES;
  }

  lemma SanitizedIsUploadable(c: Comic)
    requires IsSanitized(c)
    ensures (forall d :: d in ChangesOf(c) ==> ValidChange(d)) <==> Bytes(c.id) <= 121
  {
    hide ValidBody, IsIdentifier, Encode;
    assert IsIdentifier(c.id, 128) by { SanitizedHasId(c); }
    ChangesOfSanitized(c);
    SuffixedIdentifier(c.id, ":copy:0");
    SuffixedIdentifier(c.id, ":copy:1");
    var p := PrimaryOfComic(c);
    assert p in ChangesOf(c) && (ValidChange(p) <==> IsIdentifier(p.id, 128));
  }

  // Every change made from a stored comic passes the v2 validation exactly when the copy ids
  // leave room for their suffix: the v2 id takes at most 121 of its 128 bytes.
  lemma V1ChangesAreUploadable(env: Env, comic: Comic)
    requires ValidEnv(env) && ValidComic(comic)
    ensures (forall c :: c in V1Changes(env, comic) ==> ValidChange(c))
            <==> Bytes(SanitizedId(env, comic.id)) <= 121
  {
    SanitizedIsSanitized(env, comic);
    SanitizedIsUploadable(Sanitize(env, comic));
    assert Sanitize(env, comic).id == SanitizedId(env, comic.id);
  }

  // ---------- The canonical group of one comic ----------

  function V1Copies(c: Comic): nat {
    if !c.owned || c.deleted then 0 else if c.isDuplicate then 2 else 1
  }

  function V1Canonical(env: Env, comic: Comic): seq<Change> {
    CanonicalOf(Sanitize(env, comic))
  }

  // The group the server logs for a sanitised comic, whatever it stored before.
  function CanonicalOf(c: Comic): seq<Change> {
    var entry := EntryOfComic(c).data.entry;
    [IssueOfComic(c),
     EntryOfComic(c).(data := Entry(if c.deleted
                                    then entry.(owned := false, isDuplicate := false, isWanted := false)
                                    else Derived(entry, V1Copies(c)))),
     PrimaryOfComic(c), SecondaryOfComic(c)]
  }

  // A copy id the bridge gives names its issue.
  predicate IsV1CopyId(id: string, issue: string) {
    id == issue + ":copy:0" || id == issue + ":copy:1"
  }

  lemma V1CopyIdIsInjective(id: string, a: string, b: string)
    requires IsV1CopyId(id, a) && IsV1CopyId(id, b)
    ensures a == b
  {
    assert |a| == |b| && a == id[..|a|] == b;
  }

  // The table holds only what the bridge writes.
  ghost predicate V1Shaped(es: Entities) {
    forall k :: k in es ==>
      && !es[k].data.Barcode?
      && (es[k].data.Copy? ==> IsV1CopyId(k.id, es[k].data.copy.issueId))
  }

  lemma SanitizeIsStable(env: Env, comic: Comic)
    ensures V1Changes(env, StoredComic(comic)) == V1Changes(env, comic)
    ensures V1Canonical(env, StoredComic(comic)) == V1Canonical(env, comic)
  {
  }

  lemma OrderedStep(cs: seq<Change>, c: Change)
    ensures IssueChanges(cs + [c]) == IssueChanges(cs) + if c.data.Issue? then [CanonicalChange(c)] else []
    ensures OtherChanges(cs + [c]) == OtherChanges(cs) + if c.data.Issue? then [] else [c]
  {
    assert (cs + [c])[..|cs|] == cs;
  }

  lemma OrderedOfV1(c: Comic)
    ensures Ordered(ChangesOf(c)) == ChangesOf(c)
  {
    hide Ordered;
    OrderedOfFour(IssueOfComic(c), EntryOfComic(c), PrimaryOfComic(c), SecondaryOfComic(c));
  }

  lemma OrderedOfFour(a: Change, b: Change, p: Change, q: Change)
    requires a.data.Issue? && CanonicalChange(a) == a
    requires !b.data.Issue? && !p.data.Issue? && !q.data.Issue?
    ensures Ordered([a, b, p, q]) == [a, b, p, q]
  {
    hide IssueChanges, OtherChanges, CanonicalChange;
    NothingOrdered();
    OrderedStep([], a);
    OrderedStep([a], b);
    OrderedStep([a, b], p);
    OrderedStep([a, b, p], q);
    assert [] + [a] == [a] && [a] + [b] == [a, b] && [a, b] + [p] == [a, b, p] && [a, b, p] + [q] == [a, b, p, q];
  }

  lemma NothingOrdered()
    ensures IssueChanges([]) == [] && OtherChanges([]) == []
  {
  }

  lemma CopyKeysDiffer(c: Comic)
    ensures PrimaryOfComic(c).id != SecondaryOfComic(c).id
  {
    assert PrimaryOfComic(c).id[|c.id| + 6] != SecondaryOfComic(c).id[|c.id| + 6];
  }

  // A stored copy of the issue is one of the two the bridge writes.
  lemma StoredIsBridged(es: Entities, c: Comic, k: Key)
    requires WellKeyed(es) && V1Shaped(es) && k in es && IsCopyOf(es[k].data, c.id)
    ensures k == KeyOf(PrimaryOfComic(c)) || k == KeyOf(SecondaryOfComic(c))
  {
    assert k == Key(PhysicalCopy, k.id) && IsV1CopyId(k.id, c.id);
  }

  function V1ActiveKeys(c: Comic): set<Key> {
    (if c.owned && !c.deleted then {KeyOf(PrimaryOfComic(c))} else {})
    + (if c.owned && c.isDuplicate && !c.deleted then {KeyOf(SecondaryOfComic(c))} else {})
  }

  lemma V1ActiveCount(c: Comic)
    ensures |V1ActiveKeys(c)| == V1Copies(c)
  {
    hide PrimaryOfComic, SecondaryOfComic;
    CopyKeysDiffer(c);
  }

  lemma ActivatedOfV1(c: Comic)
    ensures ActivatedCopies(ChangesOf(c), c.id) == V1ActiveKeys(c)
  {
    var cs, p, s := ChangesOf(c), PrimaryOfComic(c), SecondaryOfComic(c);
    assert cs[2] == p && cs[3] == s && p in cs && s in cs;
  }

  lemma ChangedOfV1(c: Comic)
    ensures KeyOf(PrimaryOfComic(c)) in ChangedCopies(ChangesOf(c), c.id)
    ensures KeyOf(SecondaryOfComic(c)) in ChangedCopies(ChangesOf(c), c.id)
  {
    assert ChangesOf(c)[2] in ChangesOf(c) && ChangesOf(c)[3] in ChangesOf(c);
  }

  lemma MergedOfV1(es: Entities, c: Comic)
    requires WellKeyed(es) && V1Shaped(es)
    ensures |MergedActive(es, ChangesOf(c), c.id)| == V1Copies(c)
  {
    hide WellKeyed, IsV1CopyId, V1Shaped, PrimaryOfComic, SecondaryOfComic, ChangesOf, ActivatedCopies, ChangedCopies,
         V1ActiveKeys;
    var cs := ChangesOf(c);
    ActivatedOfV1(c);
    ChangedOfV1(c);
    V1ActiveCount(c);
    forall k | k in StoredActive(es, c.id) ensures k in ChangedCopies(cs, c.id) {
      StoredIsBridged(es, c, k);
    }
    assert MergedActive(es, cs, c.id) == V1ActiveKeys(c);
  }

  lemma V1Acceptable(es: Entities, c: Comic, d: Change)
    requires WellKeyed(es) && V1Shaped(es) && d in ChangesOf(c)
    ensures Acceptable(es, ChangesOf(c), d)
  {
    assert IssueOfComic(c) in ChangesOf(c);
    if d.data.Copy? && KeyOf(d) in es {
      V1CopyIdIsInjective(d.id, c.id, es[KeyOf(d)].data.copy.issueId);
    }
  }

  lemma CanonicalOfIsNormalized(es: Entities, c: Comic)
    ensures CanonicalOf(c) == [IssueOfComic(c), NormalizeEntry(es, EntryOfComic(c), V1Copies(c)),
                               PrimaryOfComic(c), SecondaryOfComic(c)]
  {
  }

  lemma NoneMissing(c: Comic)
    ensures MissingEntries(ChangesOf(c)) == {}
  {
    assert EntryOfComic(c) in ChangesOf(c);
  }

  lemma NormalizedOfFour(es: Entities, cs: seq<Change>, active: nat)
    requires |cs| == 4 && MissingEntries(cs) == {} && cs[1].data.Entry?
    requires !cs[0].data.Entry? && !cs[2].data.Entry? && !cs[3].data.Entry?
    requires |MergedActive(es, cs, cs[1].id)| == active
    ensures Normalized(es, cs) == [cs[0], NormalizeEntry(es, cs[1], active), cs[2], cs[3]]
  {
    hide MergedActive, NormalizeEntry, Normalized, MissingEntries;
    NormalizedLength(es, cs);
    NothingMissing(cs);
    NormalizedAt(es, cs, 0);
    NormalizedAt(es, cs, 1);
    NormalizedAt(es, cs, 2);
    NormalizedAt(es, cs, 3);
  }

  lemma NothingMissing(cs: seq<Change>)
    requires MissingEntries(cs) == {}
    ensures SortedTexts(MissingEntries(cs)) == []
  {
    hide MissingEntries;
  }

  lemma NormalizedOfV1(es: Entities, c: Comic)
    requires |MergedActive(es, ChangesOf(c), c.id)| == V1Copies(c)
    ensures Normalized(es, ChangesOf(c)) == CanonicalOf(c)
  {
    hide MergedActive, NormalizeEntry, Normalized, MissingEntries, CanonicalOf;
    CanonicalOfIsNormalized(es, c);
    NoneMissing(c);
    NormalizedOfFour(es, ChangesOf(c), V1Copies(c));
  }

  lemma CanonicalOfIsDistinct(c: Comic)
    ensures DistinctKeys(CanonicalOf(c))
  {
    CopyKeysDiffer(c);
  }

  lemma CanonicalizeComic(es: Entities, c: Comic)
    requires WellKeyed(es) && V1Shaped(es)
    ensures Canonicalize(es, ChangesOf(c)) == Ok(CanonicalOf(c))
  {
    OrderedOfV1(c);
    forall d | d in ChangesOf(c) ensures Acceptable(es, ChangesOf(c), d) {
      V1Acceptable(es, c, d);
    }
    MergedOfV1(es, c);
    NormalizedOfV1(es, c);
    CanonicalOfIsDistinct(c);
  }
}
